/** internal/notify/retry.go: the Slack retry loop in nanoseconds of int64 time.Duration. */
module Retry {

  const SECOND := 1_000_000_000
  const MAX_CUMULATIVE_WAIT := 14 * SECOND
  const MAX_BACKOFF_SHIFT := 30
  const INT64_SPAN := 0x1_0000_0000_0000_0000
  const INT64_LIMIT := 0x8000_0000_0000_0000

  /** Two's-complement wrap-around of int64. */
  function Wrap64(x: int): (r: int)
    ensures -INT64_LIMIT <= r < INT64_LIMIT && (-INT64_LIMIT <= x < INT64_LIMIT ==> r == x)
  {
    var m := x % INT64_SPAN;
    if m >= INT64_LIMIT then m - INT64_SPAN else m
  }

  function Pow2(k: nat): (p: nat)
    ensures p > 0
  {
    if k == 0 then 1 else 2 * Pow2(k - 1)
  }

  /** Retry-After: absent, not an integer, or a number of seconds. */
  datatype Header = Absent | Unparsable | Seconds(n: int)

  datatype Reply = Status(code: int, retryAfter: Header) | RequestFailed

  datatype Verdict = Delivered | Rejected(code: int) | TryAgain | TryAgainAfter(wait: nat)

  datatype Event = Slept(d: int) | Attempted(reply: Reply)

  datatype Result = Sent | ClientError(code: int) | Exhausted | ContextDone

  function ParseRetryAfter(h: Header): (wait: int)
    ensures -1 <= wait <= MAX_CUMULATIVE_WAIT
  {
    if !h.Seconds? || h.n < 0 then -1
    else if h.n > 14 then 14 * SECOND
    else h.n * SECOND
  }

  /** doAttempt's classification of one reply. */
  function Classify(r: Reply): Verdict {
    if r.RequestFailed? then TryAgain
    else if 200 <= r.code < 300 then Delivered
    else if r.code == 429 then
      var wait := ParseRetryAfter(r.retryAfter);
      if wait >= 0 then TryAgainAfter(wait) else TryAgain
    else if r.code >= 500 then TryAgain
    else Rejected(r.code)
  }

  function BackoffDuration(base: int, attempt: nat): int {
    var shift := if attempt > MAX_BACKOFF_SHIFT then MAX_BACKOFF_SHIFT else attempt;
    var d := Wrap64(base * Pow2(shift));
    if d > MAX_CUMULATIVE_WAIT then MAX_CUMULATIVE_WAIT else d
  }

  /** The loop from attempt `attempt` on, when nothing cancels the context. */
  function Session(base: int, retryCount: int, server: nat -> Reply, attempt: nat, waited: int, handled: bool): (seq<Event>, Result)
    decreases retryCount + 1 - attempt
  {
    if attempt > retryCount then ([], Exhausted)
    else if attempt > 0 && !handled then
      var wait := BackoffDuration(base, attempt - 1);
      if Wrap64(waited + wait) > MAX_CUMULATIVE_WAIT then ([], Exhausted)
      else
        var rest := AttemptAndGoOn(base, retryCount, server, attempt, Wrap64(waited + wait));
        ([Slept(wait)] + rest.0, rest.1)
    else AttemptAndGoOn(base, retryCount, server, attempt, waited)
  }

  function AttemptAndGoOn(base: int, retryCount: int, server: nat -> Reply, attempt: nat, waited: int): (seq<Event>, Result)
    requires attempt <= retryCount
    decreases retryCount + 1 - attempt, 0
  {
    var here := [Attempted(server(attempt))];
    match Classify(server(attempt))
    case Delivered => (here, Sent)
    case Rejected(code) => (here, ClientError(code))
    case TryAgain =>
      var rest := Session(base, retryCount, server, attempt + 1, waited, false);
      (here + rest.0, rest.1)
    case TryAgainAfter(wait) =>
      if attempt == retryCount || (wait > 0 && Wrap64(waited + wait) > MAX_CUMULATIVE_WAIT) then (here, Exhausted)
      else
        var rest := Session(base, retryCount, server, attempt + 1, if wait > 0 then Wrap64(waited + wait) else waited, true);
        (here + (if wait > 0 then [Slept(wait)] else []) + rest.0, rest.1)
  }

  datatype BackoffConfig = BackoffConfig(base: int, retryCount: int)

  const DefaultBackoffConfig := BackoffConfig(2 * SECOND, 3)

  function Effective(cfg: BackoffConfig): BackoffConfig {
    if cfg.base == 0 && cfg.retryCount == 0 then DefaultBackoffConfig else cfg
  }

  /** A context that may end at any moment: before an attempt or during a sleep. */
  method ContextEnds(live: bool) returns (ends: bool)
    ensures live ==> !ends
  {
    ends := false;
    if !live {
      ends := *;
    }
  }

  /** What an iteration leaves to do. */
  datatype Next = Stop(result: Result) | GoOn(waited: int, handled: bool)

  /** The steps taken and what they leave to do make up the session from here. */
  ghost predicate Covers(session: (seq<Event>, Result), steps: seq<Event>, next: Next, rest: (seq<Event>, Result)) {
    match next
    case Stop(ContextDone) => steps <= session.0
    case Stop(result) => session == (steps, result)
    case GoOn(_, _) => session == (steps + rest.0, rest.1)
  }

  /** The second half of an iteration: doAttempt, and the Retry-After sleep when there is one. */
  method TryOnce(backoff: BackoffConfig, server: nat -> Reply, live: bool, attempt: nat, waited: int)
    returns (steps: seq<Event>, next: Next)
    requires attempt <= backoff.retryCount
    ensures Covers(AttemptAndGoOn(backoff.base, backoff.retryCount, server, attempt, waited), steps, next,
                   Session(backoff.base, backoff.retryCount, server, attempt + 1,
                           if next.GoOn? then next.waited else 0, if next.GoOn? then next.handled else false))
    ensures live ==> next != Stop(ContextDone)
    ensures next.Stop? ==> next.result in {Sent, Exhausted, ContextDone} || next.result.ClientError?
  {
    var ended := ContextEnds(live);
    if ended {
      return [], Stop(ContextDone);
    }
    var reply := server(attempt);
    match Classify(reply) {
      case Delivered => return [Attempted(reply)], Stop(Sent);
      case Rejected(code) => return [Attempted(reply)], Stop(ClientError(code));
      case TryAgain =>
        // a request that failed because the context has ended
        ended := ContextEnds(live);
        if reply.RequestFailed? && ended {
          return [Attempted(reply)], Stop(ContextDone);
        }
        return [Attempted(reply)], GoOn(waited, false);
      case TryAgainAfter(retryWait) =>
        if attempt == backoff.retryCount {
          return [Attempted(reply)], Stop(Exhausted);
        }
        if retryWait > 0 {
          if Wrap64(waited + retryWait) > MAX_CUMULATIVE_WAIT {
            return [Attempted(reply)], Stop(Exhausted);
          }
          var interrupted := ContextEnds(live);
          if interrupted {
            return [Attempted(reply)], Stop(ContextDone);
          }
          return [Attempted(reply)] + [Slept(retryWait)], GoOn(Wrap64(waited + retryWait), true);
        }
        return [Attempted(reply)] + [], GoOn(waited, true);
    }
  }

  /** The first half of an iteration: the exponential backoff, unless Retry-After has been waited for. */
  method BackOff(backoff: BackoffConfig, ghost server: nat -> Reply, live: bool, attempt: nat, waited: int, handled: bool)
    returns (steps: seq<Event>, next: Next)
    requires attempt <= backoff.retryCount
    ensures Covers(Session(backoff.base, backoff.retryCount, server, attempt, waited, handled), steps, next,
                   AttemptAndGoOn(backoff.base, backoff.retryCount, server, attempt, if next.GoOn? then next.waited else 0))
    ensures live ==> next != Stop(ContextDone)
    ensures next.Stop? ==> next.result in {Exhausted, ContextDone}
  {
    if attempt == 0 || handled {
      ghost var rest := AttemptAndGoOn(backoff.base, backoff.retryCount, server, attempt, waited);
      assert [] + rest.0 == rest.0;
      return [], GoOn(waited, handled);
    }
    var wait := BackoffDuration(backoff.base, attempt - 1);
    if Wrap64(waited + wait) > MAX_CUMULATIVE_WAIT {
      return [], Stop(Exhausted);
    }
    var interrupted := ContextEnds(live);
    return if interrupted then [] else [Slept(wait)], if interrupted then Stop(ContextDone) else GoOn(Wrap64(waited + wait), handled);
  }

  /** postWithRetry. The log is a prefix of the session's, and all of it unless the context ends. */
  method PostWithRetry(cfg: BackoffConfig, server: nat -> Reply, live: bool) returns (log: seq<Event>, result: Result)
    ensures log <= Session(Effective(cfg).base, Effective(cfg).retryCount, server, 0, 0, false).0
    ensures result != ContextDone ==> (log, result) == Session(Effective(cfg).base, Effective(cfg).retryCount, server, 0, 0, false)
    ensures live ==> result != ContextDone
    // whether or not the context ends
    ensures 0 <= cfg.base < 0x2_0000_0000 && 0 <= cfg.retryCount ==>
              Attempts(log) <= Effective(cfg).retryCount + 1 && 0 <= TotalSleep(log) <= MAX_CUMULATIVE_WAIT
    // the outcome in status codes of the last reply
    ensures result != ContextDone && 0 <= cfg.retryCount ==>
              && log != [] && log[|log| - 1].Attempted?
              && var last := log[|log| - 1].reply;
                 && (result == Sent <==> last.Status? && 200 <= last.code < 300)
                 && (result.ClientError? <==> last.Status? && !(200 <= last.code < 300) && last.code != 429 && last.code < 500)
                 && (result.ClientError? ==> result.code == last.code)
                 && (result == Exhausted <==> last.RequestFailed? || last.code == 429 || last.code >= 500)
    // every earlier reply asked for a retry, and was followed by the wait it asked for, or else by the backoff
    ensures forall i :: 0 <= i < |log| - 1 && log[i].Attempted? ==>
              log[i].reply.RequestFailed? || log[i].reply.code == 429 || log[i].reply.code >= 500
    ensures forall i :: 0 <= i < |log| - 1 && log[i].Attempted? ==>
              var r := log[i].reply;
              if r.Status? && r.code == 429 && r.retryAfter.Seconds? && r.retryAfter.n >= 0 then
                if r.retryAfter.n == 0 then log[i + 1].Attempted?
                else log[i + 1] == Slept((if r.retryAfter.n > 14 then 14 else r.retryAfter.n) * 1_000_000_000)
              else log[i + 1] == Slept(BackoffDuration(Effective(cfg).base, Attempts(log[..i])))
    // it gives up only after RetryCount retries or when the next wait would exceed 14 s in all
    ensures result == Exhausted && 0 <= cfg.base < 0x2_0000_0000 && 0 <= cfg.retryCount ==>
              || Attempts(log) == (if cfg.base == 0 && cfg.retryCount == 0 then 4 else cfg.retryCount + 1)
              || TotalSleep(log) + Wait(log[|log| - 1].reply, Effective(cfg).base, Attempts(log) - 1) > 14_000_000_000
  {
    var backoff := if cfg.base == 0 && cfg.retryCount == 0 then DefaultBackoffConfig else cfg;
    log, result := RunAttempts(backoff, server, live);
    LogBounded(cfg, server, log);
    LogMeans(cfg, server, log);
    if 0 <= cfg.retryCount {
      EndMeans(cfg, server);
    }
    if 0 <= cfg.base < 0x2_0000_0000 && 0 <= cfg.retryCount {
      GivingUpMeans(cfg, server);
    }
  }

  /** The loop. */
  method RunAttempts(backoff: BackoffConfig, server: nat -> Reply, live: bool) returns (log: seq<Event>, result: Result)
    ensures log <= Session(backoff.base, backoff.retryCount, server, 0, 0, false).0
    ensures result != ContextDone ==> (log, result) == Session(backoff.base, backoff.retryCount, server, 0, 0, false)
    ensures live ==> result != ContextDone
  {
    ghost var all := Session(backoff.base, backoff.retryCount, server, 0, 0, false);
    log := [];
    var cumulativeWait := 0;
    var retryAfterHandled := false;
    var attempt := 0;
    assert all.0 == log + all.0;
    while attempt <= backoff.retryCount
      invariant 0 <= attempt
      invariant Remains(all, log, Session(backoff.base, backoff.retryCount, server, attempt, cumulativeWait, retryAfterHandled))
      decreases backoff.retryCount + 1 - attempt
    {
      ghost var here := Session(backoff.base, backoff.retryCount, server, attempt, cumulativeWait, retryAfterHandled);
      var steps, next := BackOff(backoff, server, live, attempt, cumulativeWait, retryAfterHandled);
      if next.Stop? {
        Finish(all, log, here, steps, next);
        return log + steps, next.result;
      }
      cumulativeWait := next.waited;
      here := AttemptAndGoOn(backoff.base, backoff.retryCount, server, attempt, cumulativeWait);
      Advance(all, log, steps, here);
      log := log + steps;
      steps, next := TryOnce(backoff, server, live, attempt, cumulativeWait);
      if next.Stop? {
        Finish(all, log, here, steps, next);
        return log + steps, next.result;
      }
      Advance(all, log, steps, Session(backoff.base, backoff.retryCount, server, attempt + 1, next.waited, next.handled));
      log := log + steps;
      cumulativeWait, retryAfterHandled := next.waited, next.handled;
      attempt := attempt + 1;
    }
    assert log + [] == log;
    return log, Exhausted;
  }

  /** The log so far and what remains make up the session. */
  ghost predicate Remains(all: (seq<Event>, Result), log: seq<Event>, rest: (seq<Event>, Result)) {
    all.0 == log + rest.0 && all.1 == rest.1
  }

  lemma Advance(all: (seq<Event>, Result), log: seq<Event>, steps: seq<Event>, rest: (seq<Event>, Result))
    requires Remains(all, log, (steps + rest.0, rest.1))
    ensures Remains(all, log + steps, rest)
  {
    assert log + (steps + rest.0) == (log + steps) + rest.0;
  }

  lemma Finish(all: (seq<Event>, Result), log: seq<Event>, rest: (seq<Event>, Result), steps: seq<Event>, next: Next)
    requires Remains(all, log, rest) && next.Stop? && Covers(rest, steps, next, rest)
    ensures log + steps <= all.0
    ensures next.result != ContextDone ==> (log + steps, next.result) == all
  {
  }

  // ---- bounds ----

  function TotalSleep(log: seq<Event>): int {
    if log == [] then 0 else (if log[0].Slept? then log[0].d else 0) + TotalSleep(log[1..])
  }

  function Attempts(log: seq<Event>): nat {
    if log == [] then 0 else (if log[0].Attempted? then 1 else 0) + Attempts(log[1..])
  }

  ghost predicate NoNegativeSleep(log: seq<Event>) {
    forall e :: e in log && e.Slept? ==> e.d >= 0
  }

  /** Every completed sleep is followed by another attempt. */
  ghost predicate SleepsLeadToAttempts(log: seq<Event>) {
    forall i :: 0 <= i < |log| && log[i].Slept? ==> i + 1 < |log| && log[i + 1].Attempted?
  }

  /** No backoff the loop can reach has wrapped to a negative duration. */
  ghost predicate NoNegativeBackoff(base: int, retryCount: int) {
    forall a: nat :: a < retryCount ==> BackoffDuration(base, a) >= 0
  }

  /** The result is the verdict on the last reply, and every reply before it asked for a retry. */
  ghost predicate Ends(log: seq<Event>, result: Result) {
    && log != [] && log[|log| - 1].Attempted?
    && (forall i :: 0 <= i < |log| - 1 && log[i].Attempted? ==> Retryable(log[i].reply))
    && match result
       case Sent => Classify(log[|log| - 1].reply) == Delivered
       case ClientError(code) => Classify(log[|log| - 1].reply) == Rejected(code)
       case Exhausted => Retryable(log[|log| - 1].reply)
       case ContextDone => false
  }

  predicate Retryable(r: Reply) {
    Classify(r).TryAgain? || Classify(r).TryAgainAfter?
  }

  lemma EndsCons(e: Event, log: seq<Event>, result: Result)
    requires e.Attempted? ==> Retryable(e.reply)
    requires Ends(log, result) || (log == [] && e.Attempted? && result == Exhausted)
    ensures Ends([e] + log, result)
  {
  }

  lemma {:induction false} SessionEnds(base: int, retryCount: int, server: nat -> Reply, attempt: nat, waited: int, handled: bool)
    ensures var s := Session(base, retryCount, server, attempt, waited, handled);
      Ends(s.0, s.1) || (s == ([], Exhausted) && (attempt > retryCount || (attempt > 0 && !handled)))
    decreases retryCount + 1 - attempt, 1
  {
    if attempt <= retryCount {
      if attempt > 0 && !handled {
        var wait := BackoffDuration(base, attempt - 1);
        if Wrap64(waited + wait) <= MAX_CUMULATIVE_WAIT {
          AttemptEnds(base, retryCount, server, attempt, Wrap64(waited + wait));
          var rest := AttemptAndGoOn(base, retryCount, server, attempt, Wrap64(waited + wait));
          EndsCons(Slept(wait), rest.0, rest.1);
        }
      } else {
        AttemptEnds(base, retryCount, server, attempt, waited);
      }
    }
  }

  lemma {:induction false} AttemptEnds(base: int, retryCount: int, server: nat -> Reply, attempt: nat, waited: int)
    requires attempt <= retryCount
    ensures var s := AttemptAndGoOn(base, retryCount, server, attempt, waited); Ends(s.0, s.1)
    decreases retryCount + 1 - attempt, 0
  {
    var here := Attempted(server(attempt));
    match Classify(server(attempt)) {
      case Delivered =>
      case Rejected(code) =>
      case TryAgain =>
        SessionEnds(base, retryCount, server, attempt + 1, waited, false);
        var rest := Session(base, retryCount, server, attempt + 1, waited, false);
        EndsCons(here, rest.0, rest.1);
      case TryAgainAfter(wait) =>
        var after := if wait > 0 then Wrap64(waited + wait) else waited;
        if !(attempt == retryCount || (wait > 0 && after > MAX_CUMULATIVE_WAIT)) {
          SessionEnds(base, retryCount, server, attempt + 1, after, true);
          var rest := Session(base, retryCount, server, attempt + 1, after, true);
          if wait > 0 {
            EndsCons(Slept(wait), rest.0, rest.1);
            EndsCons(here, [Slept(wait)] + rest.0, rest.1);
            assert [here] + [Slept(wait)] + rest.0 == [here] + ([Slept(wait)] + rest.0);
          } else {
            EndsCons(here, rest.0, rest.1);
            assert [here] + [] + rest.0 == [here] + rest.0;
          }
        }
    }
  }

  lemma TotalSleepCons(e: Event, log: seq<Event>)
    ensures TotalSleep([e] + log) == (if e.Slept? then e.d else 0) + TotalSleep(log)
    ensures Attempts([e] + log) == (if e.Attempted? then 1 else 0) + Attempts(log)
  {
    assert ([e] + log)[1..] == log;
  }

  ghost predicate Bounded(log: seq<Event>, waited: int, attemptsLeft: int) {
    && NoNegativeSleep(log)
    && SleepsLeadToAttempts(log)
    && waited + TotalSleep(log) <= MAX_CUMULATIVE_WAIT
    && Attempts(log) <= attemptsLeft
  }

  function AttemptsLeft(retryCount: int, attempt: nat): nat {
    if attempt <= retryCount then retryCount + 1 - attempt else 0
  }

  lemma BoundedCons(e: Event, log: seq<Event>, waited: int, attemptsLeft: int)
    requires e.Slept? ==> 0 <= e.d && log != [] && log[0].Attempted?
    requires Bounded(log, if e.Slept? then waited + e.d else waited, if e.Slept? then attemptsLeft else attemptsLeft - 1)
    ensures Bounded([e] + log, waited, attemptsLeft)
  {
    TotalSleepCons(e, log);
    var longer := [e] + log;
    forall i | 0 <= i < |longer| && longer[i].Slept? ensures i + 1 < |longer| && longer[i + 1].Attempted? {
      if i > 0 {
        assert log[i - 1].Slept?;
      }
    }
  }

  lemma BoundedSleep(e: Event, wait: nat, log: seq<Event>, waited: int, attemptsLeft: int)
    requires e.Attempted? && log != [] && log[0].Attempted?
    requires Bounded(log, waited + wait, attemptsLeft - 1)
    ensures Bounded([e] + [Slept(wait)] + log, waited, attemptsLeft)
  {
    BoundedCons(Slept(wait), log, waited, attemptsLeft - 1);
    BoundedCons(e, [Slept(wait)] + log, waited, attemptsLeft);
    assert [e] + [Slept(wait)] + log == [e] + ([Slept(wait)] + log);
  }

  lemma {:induction false} SessionBounded(base: int, retryCount: int, server: nat -> Reply, attempt: nat, waited: int, handled: bool)
    requires NoNegativeBackoff(base, retryCount) && 0 <= waited <= MAX_CUMULATIVE_WAIT
    ensures var s := Session(base, retryCount, server, attempt, waited, handled);
      Bounded(s.0, waited, AttemptsLeft(retryCount, attempt))
      && (handled && attempt <= retryCount ==> s.0 != [] && s.0[0].Attempted?)
    decreases retryCount + 1 - attempt, 2
  {
    if attempt <= retryCount {
      if attempt > 0 && !handled {
        WaitBounded(base, retryCount, server, attempt, waited);
      } else {
        AttemptBounded(base, retryCount, server, attempt, waited);
        assert Session(base, retryCount, server, attempt, waited, handled)
            == AttemptAndGoOn(base, retryCount, server, attempt, waited);
      }
    }
  }

  lemma {:induction false} WaitBounded(base: int, retryCount: int, server: nat -> Reply, attempt: nat, waited: int)
    requires 0 < attempt <= retryCount
    requires NoNegativeBackoff(base, retryCount) && 0 <= waited <= MAX_CUMULATIVE_WAIT
    ensures Bounded(Session(base, retryCount, server, attempt, waited, false).0, waited, retryCount + 1 - attempt)
    decreases retryCount + 1 - attempt, 1
  {
    var wait := BackoffDuration(base, attempt - 1);
    if waited + wait <= MAX_CUMULATIVE_WAIT {
      AttemptBounded(base, retryCount, server, attempt, waited + wait);
      BoundedCons(Slept(wait), AttemptAndGoOn(base, retryCount, server, attempt, waited + wait).0, waited, retryCount + 1 - attempt);
    }
  }

  lemma {:induction false} AttemptBounded(base: int, retryCount: int, server: nat -> Reply, attempt: nat, waited: int)
    requires attempt <= retryCount
    requires NoNegativeBackoff(base, retryCount) && 0 <= waited <= MAX_CUMULATIVE_WAIT
    ensures var s := AttemptAndGoOn(base, retryCount, server, attempt, waited);
      s.0 != [] && s.0[0].Attempted? && Bounded(s.0, waited, retryCount + 1 - attempt)
    decreases retryCount + 1 - attempt, 0
  {
    var here := Attempted(server(attempt));
    assert [here] == [here] + [];
    match Classify(server(attempt)) {
      case Delivered => BoundedCons(here, [], waited, retryCount + 1 - attempt);
      case Rejected(code) => BoundedCons(here, [], waited, retryCount + 1 - attempt);
      case TryAgain =>
        SessionBounded(base, retryCount, server, attempt + 1, waited, false);
        BoundedCons(here, Session(base, retryCount, server, attempt + 1, waited, false).0, waited, retryCount + 1 - attempt);
      case TryAgainAfter(wait) =>
        if attempt == retryCount || (wait > 0 && waited + wait > MAX_CUMULATIVE_WAIT) {
          BoundedCons(here, [], waited, retryCount + 1 - attempt);
        } else {
          var after := if wait > 0 then waited + wait else waited;
          SessionBounded(base, retryCount, server, attempt + 1, after, true);
          var rest := Session(base, retryCount, server, attempt + 1, after, true).0;
          if wait > 0 {
            BoundedSleep(here, wait, rest, waited, retryCount + 1 - attempt);
          } else {
            BoundedCons(here, rest, waited, retryCount + 1 - attempt);
            assert [here] + [] + rest == [here] + rest;
          }
        }
    }
  }

  /** The bound for every sequence of replies: at most RetryCount+1 posts, at most 14 s of sleep in all,
      no sleep that is not followed by another attempt, and the result is the verdict on the last reply. */
  lemma RetryBound(cfg: BackoffConfig, server: nat -> Reply)
    requires 0 <= cfg.base < 0x2_0000_0000 && 0 <= cfg.retryCount
    ensures var s := Session(Effective(cfg).base, Effective(cfg).retryCount, server, 0, 0, false);
      && Attempts(s.0) <= Effective(cfg).retryCount + 1
      && 0 <= TotalSleep(s.0) <= MAX_CUMULATIVE_WAIT
      && SleepsLeadToAttempts(s.0) && Ends(s.0, s.1)
  {
    var b := Effective(cfg);
    forall a: nat ensures BackoffDuration(b.base, a) >= 0 {
      BackoffIsCapped(b.base, a);
    }
    SessionBounded(b.base, b.retryCount, server, 0, 0, false);
    SessionEnds(b.base, b.retryCount, server, 0, 0, false);
    SleepNonNegative(Session(b.base, b.retryCount, server, 0, 0, false).0);
  }

  /** A session that the end of the context cuts short is within the same bounds. */
  lemma LogBounded(cfg: BackoffConfig, server: nat -> Reply, log: seq<Event>)
    requires log <= Session(Effective(cfg).base, Effective(cfg).retryCount, server, 0, 0, false).0
    ensures 0 <= cfg.base < 0x2_0000_0000 && 0 <= cfg.retryCount ==>
              Attempts(log) <= Effective(cfg).retryCount + 1 && 0 <= TotalSleep(log) <= MAX_CUMULATIVE_WAIT
  {
    if 0 <= cfg.base < 0x2_0000_0000 && 0 <= cfg.retryCount {
      var b := Effective(cfg);
      RetryBound(cfg, server);
      forall a: nat ensures BackoffDuration(b.base, a) >= 0 {
        BackoffIsCapped(b.base, a);
      }
      SessionBounded(b.base, b.retryCount, server, 0, 0, false);
      PrefixBounded(log, Session(b.base, b.retryCount, server, 0, 0, false).0);
    }
  }

  // ---- in status codes ----

  lemma ClassifyMeans(r: Reply)
    ensures Classify(r) == Delivered <==> r.Status? && 200 <= r.code < 300
    ensures forall c :: Classify(r) == Rejected(c) <==> r.Status? && r.code == c && !(200 <= c < 300) && c != 429 && c < 500
    ensures Retryable(r) <==> r.RequestFailed? || r.code == 429 || r.code >= 500
    ensures forall wait :: Classify(r) == TryAgainAfter(wait) <==>
              && r.Status? && r.code == 429 && r.retryAfter.Seconds? && r.retryAfter.n >= 0
              && wait == (if r.retryAfter.n > 14 then 14 else r.retryAfter.n) * 1_000_000_000
  {
  }

  /** The wait after a reply to attempt a, when it is retried. */
  function Wait(r: Reply, base: int, a: int): int {
    if r.Status? && r.code == 429 && r.retryAfter.Seconds? && r.retryAfter.n >= 0
    then (if r.retryAfter.n > 14 then 14 else r.retryAfter.n) * SECOND
    else BackoffDuration(base, if a < 0 then 0 else a)
  }

  /** What follows the attempt at position i, attempt number a. */
  ghost predicate Follows(log: seq<Event>, i: int, base: int, a: nat)
    requires 0 <= i < |log| - 1 && log[i].Attempted?
  {
    var r := log[i].reply;
    && Retryable(r)
    && if r.Status? && r.code == 429 && r.retryAfter.Seconds? && r.retryAfter.n == 0 then log[i + 1].Attempted?
       else log[i + 1] == Slept(Wait(r, base, a))
  }

  /** Every attempt from number a on is followed by its wait. */
  ghost predicate Paced(log: seq<Event>, base: int, a: nat) {
    log != [] ==>
      && (log[0].Attempted? && |log| > 1 ==> Follows(log, 0, base, a))
      && Paced(log[1..], base, if log[0].Attempted? then a + 1 else a)
  }

  lemma PacedCons(e: Event, log: seq<Event>, base: int, a: nat)
    requires Paced(log, base, if e.Attempted? then a + 1 else a)
    requires e.Attempted? && log != [] ==> Follows([e] + log, 0, base, a)
    ensures Paced([e] + log, base, a)
  {
    assert ([e] + log)[1..] == log;
  }

  lemma {:induction false} PacedAt(log: seq<Event>, base: int, a: nat, i: nat)
    requires Paced(log, base, a) && i < |log| - 1 && log[i].Attempted?
    ensures Follows(log, i, base, a + Attempts(log[..i]))
  {
    if i > 0 {
      PacedAt(log[1..], base, if log[0].Attempted? then a + 1 else a, i - 1);
      assert log[..i] == [log[0]] + log[1..][..i - 1];
      TotalSleepCons(log[0], log[1..][..i - 1]);
    }
  }

  lemma {:induction false} SessionPaced(base: int, retryCount: int, server: nat -> Reply, attempt: nat, waited: int, handled: bool)
    ensures var log := Session(base, retryCount, server, attempt, waited, handled).0;
      && Paced(log, base, attempt)
      && (log != [] ==> if attempt > 0 && !handled then log[0] == Slept(BackoffDuration(base, attempt - 1)) else log[0].Attempted?)
    decreases retryCount + 1 - attempt, 2
  {
    if attempt <= retryCount {
      if attempt > 0 && !handled {
        var wait := BackoffDuration(base, attempt - 1);
        if Wrap64(waited + wait) <= MAX_CUMULATIVE_WAIT {
          AttemptPaced(base, retryCount, server, attempt, Wrap64(waited + wait));
          PacedCons(Slept(wait), AttemptAndGoOn(base, retryCount, server, attempt, Wrap64(waited + wait)).0, base, attempt);
        }
      } else {
        AttemptPaced(base, retryCount, server, attempt, waited);
      }
    }
  }

  lemma {:induction false} AttemptPaced(base: int, retryCount: int, server: nat -> Reply, attempt: nat, waited: int)
    requires attempt <= retryCount
    ensures var log := AttemptAndGoOn(base, retryCount, server, attempt, waited).0;
      Paced(log, base, attempt) && log != [] && log[0] == Attempted(server(attempt))
    decreases retryCount + 1 - attempt, 1
  {
    var here := Attempted(server(attempt));
    match Classify(server(attempt)) {
      case Delivered =>
      case Rejected(code) =>
      case TryAgain =>
        ClassifyMeans(server(attempt));
        SessionPaced(base, retryCount, server, attempt + 1, waited, false);
        PacedCons(here, Session(base, retryCount, server, attempt + 1, waited, false).0, base, attempt);
      case TryAgainAfter(wait) =>
        WaitPaced(base, retryCount, server, attempt, waited, wait);
    }
  }

  /** After a reply with Retry-After. */
  lemma {:induction false} WaitPaced(base: int, retryCount: int, server: nat -> Reply, attempt: nat, waited: int, wait: nat)
    requires attempt <= retryCount && Classify(server(attempt)) == TryAgainAfter(wait)
    ensures var log := AttemptAndGoOn(base, retryCount, server, attempt, waited).0;
      Paced(log, base, attempt) && log != [] && log[0] == Attempted(server(attempt))
    decreases retryCount + 1 - attempt, 0
  {
    var here := Attempted(server(attempt));
    var after := if wait > 0 then Wrap64(waited + wait) else waited;
    if attempt == retryCount || (wait > 0 && after > MAX_CUMULATIVE_WAIT) {
      assert AttemptAndGoOn(base, retryCount, server, attempt, waited).0 == [here];
    } else {
      SessionPaced(base, retryCount, server, attempt + 1, after, true);
      var rest := Session(base, retryCount, server, attempt + 1, after, true).0;
      assert AttemptAndGoOn(base, retryCount, server, attempt, waited).0
          == [here] + (if wait > 0 then [Slept(wait)] else []) + rest;
      PacedWait(here, wait, rest, base, attempt);
    }
  }

  lemma PacedWait(e: Event, wait: nat, log: seq<Event>, base: int, a: nat)
    requires e.Attempted? && Classify(e.reply) == TryAgainAfter(wait)
    requires Paced(log, base, a + 1) && (log != [] ==> log[0].Attempted?)
    ensures Paced([e] + (if wait > 0 then [Slept(wait)] else []) + log, base, a)
  {
    ClassifyMeans(e.reply);
    if wait > 0 {
      PacedCons(Slept(wait), log, base, a + 1);
      PacedCons(e, [Slept(wait)] + log, base, a);
      assert [e] + [Slept(wait)] + log == [e] + ([Slept(wait)] + log);
    } else {
      PacedCons(e, log, base, a);
      assert [e] + [] + log == [e] + log;
    }
  }

  /** A log that is cut short is paced too. */
  lemma LogMeans(cfg: BackoffConfig, server: nat -> Reply, log: seq<Event>)
    requires log <= Session(Effective(cfg).base, Effective(cfg).retryCount, server, 0, 0, false).0
    ensures forall i :: 0 <= i < |log| - 1 && log[i].Attempted? ==>
              log[i].reply.RequestFailed? || log[i].reply.code == 429 || log[i].reply.code >= 500
    ensures forall i :: 0 <= i < |log| - 1 && log[i].Attempted? ==>
              var r := log[i].reply;
              if r.Status? && r.code == 429 && r.retryAfter.Seconds? && r.retryAfter.n >= 0 then
                if r.retryAfter.n == 0 then log[i + 1].Attempted?
                else log[i + 1] == Slept((if r.retryAfter.n > 14 then 14 else r.retryAfter.n) * 1_000_000_000)
              else log[i + 1] == Slept(BackoffDuration(Effective(cfg).base, Attempts(log[..i])))
  {
    SessionPaced(Effective(cfg).base, Effective(cfg).retryCount, server, 0, 0, false);
    forall i | 0 <= i < |log| - 1 && log[i].Attempted? ensures Follows(log, i, Effective(cfg).base, Attempts(log[..i])) {
      PrefixPaced(log, Session(Effective(cfg).base, Effective(cfg).retryCount, server, 0, 0, false).0, Effective(cfg).base, i);
    }
    forall i | 0 <= i < |log| - 1 && log[i].Attempted?
      ensures log[i].reply.RequestFailed? || log[i].reply.code == 429 || log[i].reply.code >= 500
    {
      ClassifyMeans(log[i].reply);
    }
  }

  lemma PrefixPaced(log: seq<Event>, all: seq<Event>, base: int, i: nat)
    requires log <= all && Paced(all, base, 0) && i < |log| - 1 && log[i].Attempted?
    ensures Follows(log, i, base, Attempts(log[..i]))
  {
    PacedAt(all, base, 0, i);
    assert all[i] == log[i] && all[i + 1] == log[i + 1] && all[..i] == log[..i];
  }

  /** The end of a session that runs to it, in status codes. */
  lemma EndMeans(cfg: BackoffConfig, server: nat -> Reply)
    requires 0 <= cfg.retryCount
    ensures var s := Session(Effective(cfg).base, Effective(cfg).retryCount, server, 0, 0, false);
      && s.0 != [] && s.0[|s.0| - 1].Attempted? && s.1 != ContextDone
      && var last := s.0[|s.0| - 1].reply;
         && (s.1 == Sent <==> last.Status? && 200 <= last.code < 300)
         && (s.1.ClientError? <==> last.Status? && !(200 <= last.code < 300) && last.code != 429 && last.code < 500)
         && (s.1.ClientError? ==> s.1.code == last.code)
         && (s.1 == Exhausted <==> last.RequestFailed? || last.code == 429 || last.code >= 500)
  {
    var b := Effective(cfg);
    SessionEnds(b.base, b.retryCount, server, 0, 0, false);
    ClassifyMeans(Session(b.base, b.retryCount, server, 0, 0, false).0[|Session(b.base, b.retryCount, server, 0, 0, false).0| - 1].reply);
  }

  /** And in waits. */
  lemma GivingUpMeans(cfg: BackoffConfig, server: nat -> Reply)
    requires 0 <= cfg.base < 0x2_0000_0000 && 0 <= cfg.retryCount
    ensures var s := Session(Effective(cfg).base, Effective(cfg).retryCount, server, 0, 0, false);
      s.1 == Exhausted ==>
        && s.0 != [] && s.0[|s.0| - 1].Attempted?
        && (|| Attempts(s.0) == (if cfg.base == 0 && cfg.retryCount == 0 then 4 else cfg.retryCount + 1)
            || TotalSleep(s.0) + Wait(s.0[|s.0| - 1].reply, Effective(cfg).base, Attempts(s.0) - 1) > 14_000_000_000)
  {
    var b := Effective(cfg);
    SessionEnds(b.base, b.retryCount, server, 0, 0, false);
    forall a: nat ensures BackoffDuration(b.base, a) >= 0 {
      BackoffIsCapped(b.base, a);
    }
    SessionGivesUp(b.base, b.retryCount, server, 0, 0, false);
  }

  /** Nothing more can be tried: the attempts are used up, or the next wait is too long. */
  ghost predicate GaveUp(log: seq<Event>, base: int, retryCount: int, attempt: nat, waited: int) {
    || attempt + Attempts(log) == retryCount + 1
    || (log != [] && log[|log| - 1].Attempted?
        && waited + TotalSleep(log) + Wait(log[|log| - 1].reply, base, attempt + Attempts(log) - 1) > MAX_CUMULATIVE_WAIT)
  }

  lemma GaveUpCons(e: Event, log: seq<Event>, base: int, retryCount: int, attempt: nat, waited: int)
    requires log != []
    requires GaveUp(log, base, retryCount, if e.Attempted? then attempt + 1 else attempt, if e.Slept? then waited + e.d else waited)
    ensures GaveUp([e] + log, base, retryCount, attempt, waited)
  {
    TotalSleepCons(e, log);
  }

  lemma GaveUpSleep(e: Event, wait: nat, log: seq<Event>, base: int, retryCount: int, attempt: nat, waited: int)
    requires e.Attempted? && log != [] && GaveUp(log, base, retryCount, attempt + 1, waited + wait)
    ensures GaveUp([e] + [Slept(wait)] + log, base, retryCount, attempt, waited)
  {
    GaveUpCons(Slept(wait), log, base, retryCount, attempt + 1, waited);
    GaveUpCons(e, [Slept(wait)] + log, base, retryCount, attempt, waited);
    assert [e] + [Slept(wait)] + log == [e] + ([Slept(wait)] + log);
  }

  lemma {:induction false} SessionGivesUp(base: int, retryCount: int, server: nat -> Reply, attempt: nat, waited: int, handled: bool)
    requires NoNegativeBackoff(base, retryCount) && 0 <= waited <= MAX_CUMULATIVE_WAIT && attempt <= retryCount + 1
    ensures var s := Session(base, retryCount, server, attempt, waited, handled);
      s.1 == Exhausted ==>
        || GaveUp(s.0, base, retryCount, attempt, waited)
        || (s.0 == [] && attempt > 0 && !handled && waited + BackoffDuration(base, attempt - 1) > MAX_CUMULATIVE_WAIT)
    ensures var s := Session(base, retryCount, server, attempt, waited, handled);
      s.0 == [] && attempt <= retryCount ==> attempt > 0 && !handled
    decreases retryCount + 1 - attempt, 2
  {
    if attempt <= retryCount {
      if attempt > 0 && !handled {
        var wait := BackoffDuration(base, attempt - 1);
        if waited + wait <= MAX_CUMULATIVE_WAIT {
          AttemptGivesUp(base, retryCount, server, attempt, waited + wait);
          var rest := AttemptAndGoOn(base, retryCount, server, attempt, waited + wait);
          if rest.1 == Exhausted {
            GaveUpCons(Slept(wait), rest.0, base, retryCount, attempt, waited);
          }
        }
      } else {
        AttemptGivesUp(base, retryCount, server, attempt, waited);
      }
    }
  }

  lemma {:induction false} AttemptGivesUp(base: int, retryCount: int, server: nat -> Reply, attempt: nat, waited: int)
    requires attempt <= retryCount
    requires NoNegativeBackoff(base, retryCount) && 0 <= waited <= MAX_CUMULATIVE_WAIT
    ensures var s := AttemptAndGoOn(base, retryCount, server, attempt, waited);
      s.0 != [] && (s.1 == Exhausted ==> GaveUp(s.0, base, retryCount, attempt, waited))
    decreases retryCount + 1 - attempt, 1
  {
    match Classify(server(attempt)) {
      case Delivered =>
      case Rejected(code) =>
      case TryAgain =>
        SessionGivesUp(base, retryCount, server, attempt + 1, waited, false);
        AttemptLeft(Attempted(server(attempt)), Session(base, retryCount, server, attempt + 1, waited, false), base, retryCount, attempt, waited);
      case TryAgainAfter(wait) =>
        AttemptWaits(base, retryCount, server, attempt, waited, wait);
    }
  }

  /** After a reply with Retry-After. */
  lemma {:induction false} AttemptWaits(base: int, retryCount: int, server: nat -> Reply, attempt: nat, waited: int, wait: nat)
    requires attempt <= retryCount && Classify(server(attempt)) == TryAgainAfter(wait)
    requires NoNegativeBackoff(base, retryCount) && 0 <= waited <= MAX_CUMULATIVE_WAIT
    ensures var s := AttemptAndGoOn(base, retryCount, server, attempt, waited);
      s.0 != [] && (s.1 == Exhausted ==> GaveUp(s.0, base, retryCount, attempt, waited))
    decreases retryCount + 1 - attempt, 0
  {
    var here := Attempted(server(attempt));
    if attempt == retryCount || (wait > 0 && waited + wait > MAX_CUMULATIVE_WAIT) {
      LastAttempt(here, base, retryCount, attempt, waited, wait);
      assert AttemptAndGoOn(base, retryCount, server, attempt, waited) == ([here], Exhausted);
    } else {
      var after := if wait > 0 then waited + wait else waited;
      SessionGivesUp(base, retryCount, server, attempt + 1, after, true);
      var rest := Session(base, retryCount, server, attempt + 1, after, true);
      assert AttemptAndGoOn(base, retryCount, server, attempt, waited)
          == ([here] + (if wait > 0 then [Slept(wait)] else []) + rest.0, rest.1);
      if rest.1 == Exhausted {
        if wait > 0 {
          GaveUpSleep(here, wait, rest.0, base, retryCount, attempt, waited);
        } else {
          GaveUpCons(here, rest.0, base, retryCount, attempt, waited);
          assert [here] + [] + rest.0 == [here] + rest.0;
        }
      }
    }
  }

  lemma LastAttempt(e: Event, base: int, retryCount: int, attempt: nat, waited: int, wait: nat)
    requires e.Attempted? && Classify(e.reply) == TryAgainAfter(wait)
    requires attempt == retryCount || waited + wait > MAX_CUMULATIVE_WAIT
    ensures GaveUp([e], base, retryCount, attempt, waited)
  {
    TotalSleepCons(e, []);
    assert [e] + [] == [e];
    ClassifyMeans(e.reply);
  }

  lemma AttemptLeft(here: Event, rest: (seq<Event>, Result), base: int, retryCount: int, attempt: nat, waited: int)
    requires here.Attempted? && rest.1 == Exhausted ==>
      || GaveUp(rest.0, base, retryCount, attempt + 1, waited)
      || (rest.0 == [] && waited + BackoffDuration(base, attempt) > MAX_CUMULATIVE_WAIT)
    requires here.Attempted? && Classify(here.reply).TryAgain?
    ensures rest.1 == Exhausted ==> GaveUp([here] + rest.0, base, retryCount, attempt, waited)
  {
    TotalSleepCons(here, rest.0);
  }

  lemma {:induction false} PrefixBounded(log: seq<Event>, all: seq<Event>)
    requires log <= all && NoNegativeSleep(all)
    ensures 0 <= TotalSleep(log) <= TotalSleep(all) && Attempts(log) <= Attempts(all)
  {
    if log == [] {
      SleepNonNegative(all);
    } else {
      assert all[0] in all;
      PrefixBounded(log[1..], all[1..]);
    }
  }

  lemma {:induction false} SleepNonNegative(log: seq<Event>)
    requires NoNegativeSleep(log)
    ensures TotalSleep(log) >= 0
  {
    if log != [] {
      assert log[0] in log;
      SleepNonNegative(log[1..]);
    }
  }

  /** Below 2^33 ns the shift cannot overflow: the backoff is 2^n * base capped at 14 s. */
  lemma BackoffIsCapped(base: int, attempt: nat)
    requires 0 <= base < 0x2_0000_0000
    ensures var exact := base * Pow2(if attempt > 30 then 30 else attempt);
      BackoffDuration(base, attempt) == (if exact > MAX_CUMULATIVE_WAIT then MAX_CUMULATIVE_WAIT else exact) >= 0
  {
    var shift := if attempt > 30 then 30 else attempt;
    Pow2UpTo30(shift);
    assert base * Pow2(shift) <= 0x1_FFFF_FFFF * Pow2(shift) by {
      Scale(base, 0x1_FFFF_FFFF, Pow2(shift));
    }
    Scale(0, base, Pow2(shift));
  }

  lemma Scale(a: int, b: int, k: nat)
    requires a <= b
    ensures a * k <= b * k
  {
  }

  lemma Pow2UpTo30(k: nat)
    requires k <= 30
    ensures Pow2(k) <= 0x4000_0000
  {
    Pow2Grows(k, 30);
    Pow2Of30();
  }

  lemma Pow2Of30()
    ensures Pow2(30) == 0x4000_0000
  {
    assert Pow2(6) == 64;
    assert Pow2(12) == 4096;
    assert Pow2(18) == 262144;
    assert Pow2(24) == 16777216;
  }

  lemma {:induction false} Pow2Grows(a: nat, b: nat)
    requires a <= b
    ensures Pow2(a) <= Pow2(b)
    decreases b
  {
    if a < b {
      Pow2Grows(a, b - 1);
    }
  }

  // ---- where the bound ends ----

  /** Replies that reach the n-th backoff without any sleep before it. */
  function Stepwise(n: nat): nat -> Reply {
    k => if k < n then Status(429, Seconds(0)) else Status(500, Absent)
  }

  lemma {:induction false} ReachesBackoff(base: int, retryCount: int, n: nat, attempt: nat)
    requires attempt <= n < retryCount && BackoffDuration(base, n) < 0
    ensures !NoNegativeSleep(Session(base, retryCount, Stepwise(n), attempt, 0, attempt > 0).0)
    decreases n - attempt
  {
    if attempt < n {
      ReachesBackoff(base, retryCount, n, attempt + 1);
      var rest := Session(base, retryCount, Stepwise(n), attempt + 1, 0, true).0;
      var e :| e in rest && e.Slept? && e.d < 0;
      assert e in Session(base, retryCount, Stepwise(n), attempt, 0, attempt > 0).0;
    } else {
      var last := Session(base, retryCount, Stepwise(n), n + 1, 0, false).0;
      assert last[0] == Slept(BackoffDuration(base, n));
      assert last[0] in Session(base, retryCount, Stepwise(n), n, 0, n > 0).0;
    }
  }

  /** Exactly when: every sleep of every session is non-negative, and the 14 s cap is then real, if and only if no
      backoff the loop can reach has overflowed into a negative one. */
  lemma SleepsNonNegativeIff(base: int, retryCount: int)
    ensures NoNegativeBackoff(base, retryCount) <==>
            forall server: nat -> Reply :: NoNegativeSleep(Session(base, retryCount, server, 0, 0, false).0)
  {
    if NoNegativeBackoff(base, retryCount) {
      forall server: nat -> Reply ensures NoNegativeSleep(Session(base, retryCount, server, 0, 0, false).0) {
        SessionBounded(base, retryCount, server, 0, 0, false);
      }
    } else {
      var a: nat :| a < retryCount && BackoffDuration(base, a) < 0;
      ReachesBackoff(base, retryCount, a, 0);
    }
  }

  /** The limit on the base is sharp: at 2^33 ns the 31st backoff is negative. */
  lemma LimitIsSharp()
    ensures BackoffDuration(0x2_0000_0000, 30) == -INT64_LIMIT
  {
    Pow2Of30();
  }
}
