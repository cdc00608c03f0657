/** Fetching with retries: the timeout and the pause before the next attempt both grow fourfold,
    and a download cleans up after itself before it is tried again. */
module Retry {
  import opened Common

  newtype byte = x: int | 0 <= x < 256

  // ---------------------------------------------------------------- errors

  /** The exceptions that the code tells apart. Timeouts and connection failures stand for those
      of either client library; HttpStatus is raised with or without a response. */
  datatype Error =
    | TimedOut
    | ConnectionFailed
    | HttpStatus(response: Option<int>)
    | ClientResponse(status: int)
    | OtherException

  predicate IsRetryable(e: Error) {
    match e
    case TimedOut => true
    case ConnectionFailed => true
    case HttpStatus(response) => response.Some? && response.value >= 500
    case ClientResponse(status) => status >= 500
    case OtherException => false
  }

  /** Interrupted is what `except Exception` does not catch. */
  datatype Outcome = Returned | Raised(error: Error) | Interrupted

  /** Something goes wrong, or nothing does. */
  datatype Fault = NoFault | Failing(error: Error) | Interrupt

  // ---------------------------------------------------------------- runs

  function Pow4(k: nat): nat { if k == 0 then 1 else 4 * Pow4(k - 1) }

  function Scaled(x: real, n: nat): real { x * (n as real) }

  function AttemptTimeout(base: Option<real>, k: nat): Option<real> {
    match base
    case None => None
    case Some(seconds) => Some(Scaled(seconds, Pow4(k)))
  }

  function MaxRetries(setting: int): nat { if setting > 1 then setting else 1 }

  /** What a call leaves in its history: the attempts, with the chunks that arrived and whether
      a partial file could not be removed, and the pauses between them, the last of which may be
      interrupted. */
  datatype Event =
    | Attempted(timeout: Option<real>, outcome: Outcome, received: seq<seq<byte>>, stuck: bool)
    | Slept(seconds: nat)
    | CutShort(seconds: nat)

  /** Attempt k failed in a way worth retrying, and left no file that could not be removed. */
  ghost predicate FailsAt(attempt: Event, base: Option<real>, k: nat) {
    && attempt.Attempted? && attempt.timeout == AttemptTimeout(base, k) && !attempt.stuck
    && attempt.outcome.Raised? && IsRetryable(attempt.outcome.error)
  }

  /** k failures worth retrying, each after its own timeout and before its own pause. */
  ghost predicate Retried(run: seq<Event>, base: Option<real>, k: nat) {
    if k == 0 then run == []
    else
      && |run| >= 2
      && run[|run| - 1] == Slept(Pow4(k - 1))
      && FailsAt(run[|run| - 2], base, k - 1)
      && Retried(run[..|run| - 2], base, k - 1)
  }

  /** A whole call: after k retried failures, one attempt that is the last. It returns, or is
      interrupted, or fails in a way not worth retrying, or there are no attempts left, or the
      pause after it is interrupted. */
  ghost predicate IsRun(run: seq<Event>, base: Option<real>, limit: nat, k: nat, outcome: Outcome) {
    && k < limit && run != []
    && var last := run[|run| - 1];
    if last.CutShort? then
      && k + 1 < limit && outcome == Interrupted && last.seconds == Pow4(k)
      && |run| >= 2 && FailsAt(run[|run| - 2], base, k) && Retried(run[..|run| - 2], base, k)
    else
      && Retried(run[..|run| - 1], base, k)
      && last.Attempted? && last.timeout == AttemptTimeout(base, k) && last.outcome == outcome
      && (outcome.Raised? && IsRetryable(outcome.error) ==> k + 1 == limit)
  }

  /** The last attempt of a call. */
  ghost function Last(run: seq<Event>): Event
    requires run != [] && (run[|run| - 1].CutShort? ==> |run| >= 2)
  {
    if run[|run| - 1].CutShort? then run[|run| - 2] else run[|run| - 1]
  }

  lemma OneMoreRetry(past: seq<Event>, base: Option<real>, k: nat, attempt: Event)
    requires Retried(past, base, k) && FailsAt(attempt, base, k)
    ensures Retried(past + [attempt] + [Slept(Pow4(k))], base, k + 1)
  {
    assert (past + [attempt] + [Slept(Pow4(k))])[..|past|] == past;
  }

  ghost function TimeSlept(run: seq<Event>): nat {
    if run == [] then 0
    else TimeSlept(run[..|run| - 1]) + if run[|run| - 1].Slept? then run[|run| - 1].seconds else 0
  }

  ghost function Attempts(run: seq<Event>): nat {
    if run == [] then 0 else Attempts(run[..|run| - 1]) + if run[|run| - 1].Attempted? then 1 else 0
  }

  /** The most time that attempts may take together when there is a timeout. */
  ghost function TimeAllowed(run: seq<Event>): real {
    if run == [] then 0.0
    else
      var last := run[|run| - 1];
      TimeAllowed(run[..|run| - 1]) + if last.Attempted? && last.timeout.Some? then last.timeout.value else 0.0
  }

  lemma {:induction false} RetriedAddsUp(run: seq<Event>, base: Option<real>, k: nat)
    requires Retried(run, base, k)
    ensures 3 * TimeSlept(run) == Pow4(k) - 1 && Attempts(run) == k
    ensures base.Some? ==> 3.0 * TimeAllowed(run) == base.value * (Pow4(k) as real - 1.0)
  {
    if k > 0 {
      var n := |run|;
      RetriedAddsUp(run[..n - 2], base, k - 1);
      assert run[..n - 1][..n - 2] == run[..n - 2];
      assert run[..n - 1][n - 2] == run[n - 2];
      if base.Some? {
        FourTimes(base.value, Pow4(k - 1), Pow4(k), TimeAllowed(run[..n - 2]), run[n - 2].timeout.value);
      }
    }
  }

  lemma FourTimes(base: real, p: nat, q: nat, sum: real, next: real)
    requires q == 4 * p && 3.0 * sum == base * (p as real - 1.0) && next == base * (p as real)
    ensures 3.0 * (sum + next) == base * (q as real - 1.0)
  {
    assert q as real == 4.0 * (p as real);
  }

  lemma {:induction false} PowGrows(j: nat, k: nat)
    requires j <= k
    ensures 1 <= Pow4(j) <= Pow4(k)
  {
    if k > 0 {
      PowGrows(if j < k then j else k - 1, k - 1);
    }
  }

  lemma AttemptAddsUp(run: seq<Event>, base: Option<real>, k: nat)
    requires run != [] && Retried(run[..|run| - 1], base, k)
    requires run[|run| - 1].Attempted? && run[|run| - 1].timeout == AttemptTimeout(base, k)
    ensures Attempts(run) == k + 1 && 3 * TimeSlept(run) == Pow4(k) - 1
    ensures base.Some? ==> 3.0 * TimeAllowed(run) == base.value * (Pow4(k + 1) as real - 1.0)
  {
    var before := run[..|run| - 1];
    RetriedAddsUp(before, base, k);
    if base.Some? {
      FourTimes(base.value, Pow4(k), Pow4(k + 1), TimeAllowed(before), run[|run| - 1].timeout.value);
    }
  }

  lemma CutRunAddsUp(run: seq<Event>, base: Option<real>, limit: nat, k: nat)
    requires IsRun(run, base, limit, k, Interrupted) && run[|run| - 1].CutShort?
    ensures Attempts(run) == k + 1 <= limit
    ensures 3 * TimeSlept(run) == Pow4(k) - 1 && Pow4(k + 1) == 4 * Pow4(k) && Pow4(k + 1) <= Pow4(limit - 1)
    ensures base.Some? ==> 3.0 * TimeAllowed(run) == base.value * (Pow4(k + 1) as real - 1.0)
  {
    var shorter := run[..|run| - 1];
    assert shorter[..|shorter| - 1] == run[..|run| - 2];
    AttemptAddsUp(shorter, base, k);
    PowGrows(k + 1, limit - 1);
  }

  /** Every call makes between one attempt and the limit, and completes pauses of (4^k - 1) / 3
      seconds in all when it made k + 1 attempts, which the limit bounds in advance. A pause that is
      interrupted is the next longer one, and there is room for it within that bound. */
  lemma RunAddsUp(run: seq<Event>, base: Option<real>, limit: nat, k: nat, outcome: Outcome)
    requires IsRun(run, base, limit, k, outcome)
    ensures Attempts(run) == k + 1 <= limit
    ensures 3 * TimeSlept(run) == Pow4(k) - 1 <= Pow4(limit - 1) - 1
    ensures var last := run[|run| - 1];
      last.CutShort? ==> 3 * (TimeSlept(run) + last.seconds) == Pow4(k + 1) - 1 <= Pow4(limit - 1) - 1
    ensures base.Some? ==> 3.0 * TimeAllowed(run) == base.value * (Pow4(k + 1) as real - 1.0)
  {
    if run[|run| - 1].CutShort? {
      CutRunAddsUp(run, base, limit, k);
    } else {
      AttemptAddsUp(run, base, k);
      PowGrows(k, limit - 1);
    }
  }

  /** Attempt number i of a call has the base timeout times 4^i, failed in a way worth retrying
      unless it is the last, and left no file that could not be removed; pause i is 4^i. */
  lemma {:induction false} RunAt(run: seq<Event>, base: Option<real>, k: nat, i: nat)
    requires Retried(run, base, k) && i < k
    ensures |run| == 2 * k
    ensures run[2 * i].Attempted? && run[2 * i].timeout == AttemptTimeout(base, i) && !run[2 * i].stuck
    ensures run[2 * i].outcome.Raised? && IsRetryable(run[2 * i].outcome.error)
    ensures run[2 * i + 1] == Slept(Pow4(i))
  {
    var init := run[..|run| - 2];
    if i + 1 < k {
      RunAt(init, base, k - 1, i);
    } else {
      RetriedLength(init, base, k - 1);
    }
  }

  lemma {:induction false} RetriedLength(run: seq<Event>, base: Option<real>, k: nat)
    requires Retried(run, base, k)
    ensures |run| == 2 * k
  {
    if k > 0 {
      RetriedLength(run[..|run| - 2], base, k - 1);
    }
  }

  /** Timeouts, connection failures and statuses of at least 500 are followed by a pause unless the attempts
      are used up. Nothing follows any other way of ending, and nothing but a pause follows an attempt. */
  ghost predicate TriesAgain(run: seq<Event>, limit: int) {
    forall i :: 0 <= i < |run| ==> TriesAgainAt(run, i, limit)
  }

  ghost predicate TriesAgainAt(run: seq<Event>, i: nat, limit: int)
    requires i < |run|
  {
    var last := i + 1 == |run|;
    match run[i]
    case Attempted(_, Returned, _, _) => last
    case Attempted(_, Interrupted, _, _) => last
    case Attempted(_, Raised(TimedOut), _, _) => if last then Attempts(run) == limit else PausesAt(run, i + 1)
    case Attempted(_, Raised(ConnectionFailed), _, _) => if last then Attempts(run) == limit else PausesAt(run, i + 1)
    case Attempted(_, Raised(HttpStatus(Some(status))), _, _) =>
      if status < 500 then last else if last then Attempts(run) == limit else PausesAt(run, i + 1)
    case Attempted(_, Raised(HttpStatus(None)), _, _) => last
    case Attempted(_, Raised(ClientResponse(status)), _, _) =>
      if status < 500 then last else if last then Attempts(run) == limit else PausesAt(run, i + 1)
    case Attempted(_, Raised(OtherException), _, _) => last
    case Slept(_) => !last && run[i + 1].Attempted?
    case CutShort(_) => last
  }

  ghost predicate PausesAt(run: seq<Event>, i: nat)
    requires i < |run|
  {
    run[i].Slept? || run[i].CutShort?
  }

  /** Retried failures and their pauses, wherever they stand in a run. */
  lemma {:induction false} RetriedTriesAgain(run: seq<Event>, past: seq<Event>, base: Option<real>, k: nat,
                                             limit: int, i: nat)
    requires Retried(past, base, k) && past < run && run[|past|].Attempted? && i < |past|
    ensures TriesAgainAt(run, i, limit)
  {
    var n := |past| - 2;
    if i < n {
      RetriedTriesAgain(run, past[..n], base, k - 1, limit, i);
    } else {
      assert run[n] == past[n] && run[n + 1] == past[n + 1];
    }
  }

  lemma RunTriesAgain(run: seq<Event>, base: Option<real>, limit: nat, k: nat, outcome: Outcome)
    requires IsRun(run, base, limit, k, outcome)
    ensures TriesAgain(run, limit)
  {
    RunAddsUp(run, base, limit, k, outcome);
    var n: nat := if run[|run| - 1].CutShort? then |run| - 2 else |run| - 1;
    forall i | 0 <= i < |run| ensures TriesAgainAt(run, i, limit) {
      if i < n { RetriedTriesAgain(run, run[..n], base, k, limit, i); }
    }
  }

  lemma PauseCutShort(past: seq<Event>, base: Option<real>, limit: nat, k: nat, attempt: Event)
    requires k + 1 < limit && Retried(past, base, k) && FailsAt(attempt, base, k)
    ensures
      var run := past + [attempt] + [CutShort(Pow4(k))];
      IsRun(run, base, limit, k, Interrupted) && TriesAgain(run, limit) && Last(run) == attempt
  {
    var run := past + [attempt] + [CutShort(Pow4(k))];
    assert run[..|past|] == past;
    RunTriesAgain(run, base, limit, k, Interrupted);
  }

  lemma LastAttempt(past: seq<Event>, base: Option<real>, limit: nat, k: nat, last: Event)
    requires k < limit && Retried(past, base, k) && last.Attempted? && last.timeout == AttemptTimeout(base, k)
    requires last.outcome.Raised? && IsRetryable(last.outcome.error) ==> k + 1 == limit
    ensures
      var run := past + [last];
      IsRun(run, base, limit, k, last.outcome) && TriesAgain(run, limit) && Last(run) == last
  {
    var run := past + [last];
    assert run[..|past|] == past;
    RunTriesAgain(run, base, limit, k, last.outcome);
  }

  lemma Append(a: seq<Event>, b: seq<Event>, x: Event)
    ensures a + b + [x] == a + (b + [x])
  {
  }

  // ---------------------------------------------------------------- the code

  /** The two decorated operations. */
  datatype Request = GetBytes | DownloadFile

  /** A connection and the file at the path that a download is to be saved under. The network,
      the file system and the chunks they deliver are arbitrary. */
  class Connection {
    var file: Option<seq<byte>>
    ghost var history: seq<Event>

    constructor (file: Option<seq<byte>>)
      ensures this.file == file && history == []
    {
      this.file := file;
      history := [];
    }

    method FetchBytes(timeout: Option<real>) returns (outcome: Outcome, ghost event: Event)
      modifies this`history
      ensures event.Attempted? && event.timeout == timeout && event.outcome == outcome && !event.stuck
      ensures history == old(history) + [event]
    {
      var fault: Fault := *;
      ghost var received: seq<seq<byte>> := *;
      match fault {
        case NoFault => outcome := Returned;
        case Failing(e) => outcome := Raised(e);
        case Interrupt => outcome := Interrupted;
      }
      event := Attempted(timeout, outcome, received, false);
      history := history + [event];
    }

    /** One attempt at a download. If it returns, the file holds the chunks of this attempt and
        nothing else; if it raises an ordinary exception, there is no file, not even one that
        was there before, unless removing it failed, and then that is the exception. */
    method DownloadOnce(timeout: Option<real>) returns (outcome: Outcome, ghost event: Event)
      modifies this
      ensures event.Attempted? && event.timeout == timeout && event.outcome == outcome
      ensures history == old(history) + [event]
      ensures outcome == Returned ==> file == Some(Flatten(event.received)) && !event.stuck
      ensures outcome.Raised? ==> (file == None <==> !event.stuck)
      ensures event.stuck ==> outcome == Raised(OtherException)
    {
      ghost var received: seq<seq<byte>> := [];
      // the request, its status and opening the file
      var fault: Fault := *;
      if fault == NoFault {
        file := Some([]);
        var chunks: seq<seq<byte>> := *;
        var i := 0;
        while i < |chunks| && fault == NoFault
          invariant i <= |chunks| && file == Some(Flatten(received))
          invariant history == old(history)
          decreases |chunks| - i, fault == NoFault
        {
          fault := *;
          if fault == NoFault {
            received := received + [chunks[i]];
            file := Some(file.value + chunks[i]);
            i := i + 1;
          }
        }
        if fault == NoFault {
          // the end of the stream and closing the file
          fault := *;
        }
      }
      var stuck := false;
      match fault {
        case NoFault => outcome := Returned;
        case Interrupt => outcome := Interrupted;
        case Failing(e) =>
          outcome := Raised(e);
          if file.Some? {
            var removed: bool := *;
            if removed {
              file := None;
            } else {
              stuck, outcome := true, Raised(OtherException);
            }
          }
      }
      event := Attempted(timeout, outcome, received, stuck);
      history := history + [event];
    }

    method CallOnce(request: Request, timeout: Option<real>) returns (outcome: Outcome, ghost event: Event)
      modifies this
      ensures event.Attempted? && event.timeout == timeout && event.outcome == outcome
      ensures history == old(history) + [event]
      ensures event.stuck ==> outcome == Raised(OtherException)
      ensures request == GetBytes ==> file == old(file) && !event.stuck
      ensures request == DownloadFile ==> Settled(event)
    {
      match request {
        case GetBytes => outcome, event := FetchBytes(timeout);
        case DownloadFile => outcome, event := DownloadOnce(timeout);
      }
    }

    /** The file after a download whose last attempt is this one. */
    ghost predicate Settled(last: Event)
      requires last.Attempted?
      reads this
    {
      && (last.outcome == Returned ==> file == Some(Flatten(last.received)))
      && (last.outcome.Raised? ==> (file == None <==> !last.stuck))
    }

    /** The pause after attempt k, which may be interrupted. */
    method Pause(seconds: nat) returns (event: Event)
      modifies this`history
      ensures event == Slept(seconds) || event == CutShort(seconds)
      ensures history == old(history) + [event]
    {
      var interrupted: bool := *;
      event := if interrupted then CutShort(seconds) else Slept(seconds);
      history := history + [event];
    }

    /** One attempt, and the pause after it if there is to be another. */
    method AttemptOnce(request: Request, base: Option<real>, limit: nat, attempt: nat, ghost past: seq<Event>,
                       ghost before: seq<Event>)
      returns (done: bool, outcome: Outcome, ghost run: seq<Event>)
      requires attempt < limit && Retried(past, base, attempt) && history == before + past
      modifies this
      ensures history == before + run
      ensures done ==> IsRun(run, base, limit, attempt, outcome) && TriesAgain(run, limit)
      ensures done && request == DownloadFile ==> Settled(Last(run))
      ensures !done ==> attempt + 1 < limit && Retried(run, base, attempt + 1)
      ensures request == GetBytes ==> file == old(file)
    {
      ghost var event;
      outcome, event := CallOnce(request, AttemptTimeout(base, attempt));
      run, done := past + [event], true;
      assert history == before + run by { Append(before, past, event); }
      if !outcome.Raised? || !IsRetryable(outcome.error) || attempt + 1 >= limit {
        LastAttempt(past, base, limit, attempt, event);
        return;
      }
      var pause := Pause(Pow4(attempt));
      assert history == before + (run + [pause]) by { Append(before, run, pause); }
      run, done := run + [pause], pause.CutShort?;
      if done {
        outcome := Interrupted;
        PauseCutShort(past, base, limit, attempt, event);
      } else {
        OneMoreRetry(past, base, attempt, event);
      }
    }

    /** A decorated call. Its part of the history is a run with the outcome it ends in, and a
        download leaves the file as its last attempt does, whatever the earlier ones did. */
    method RetriedCall(request: Request, timeout: Option<real>, setting: int)
      returns (outcome: Outcome, ghost run: seq<Event>, ghost retries: nat)
      modifies this
      ensures history == old(history) + run
      ensures IsRun(run, timeout, MaxRetries(setting), retries, outcome)
      ensures request == GetBytes ==> file == old(file)
      ensures request == DownloadFile ==> Settled(Last(run))
      // a timeout, a connection failure or a status of at least 500 is tried again after a pause, unless
      // the attempts are used up, and nothing else is
      ensures TriesAgain(run, if setting > 1 then setting else 1)
    {
      var base, limit := timeout, MaxRetries(setting);
      run := [];
      for attempt := 0 to limit
        invariant history == old(history) + run && Retried(run, base, attempt)
        invariant request == GetBytes ==> file == old(file)
        invariant attempt < limit
      {
        var done;
        retries := attempt;
        done, outcome, run := AttemptOnce(request, base, limit, attempt, run, old(history));
        if done {
          return;
        }
      }
      assert false;
    }
  }
}
