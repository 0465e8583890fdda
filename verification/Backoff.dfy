/** Provider attempts, which of them may be repeated, and how long a worker waits in between. */
module Backoff {
  import opened ChunkDeltas
  import opened Options

  /** How one provider stream ends; only transport errors are worth a second attempt. */
  datatype Ending = Complete | Broke(transport: bool)

  datatype Attempt =
    | HttpError(retryable: bool, retryAfter: Option<real>)
    | Stream(texts: seq<string>, ending: Ending)

  datatype Failure = Failure(retryable: bool, retryAfter: Option<real>)

  datatype Settings = Settings(attempts: int, baseDelay: real, cap: real)

  /** At least one, and as many as the settings ask for. */
  function MaxAttempts(s: Settings): (n: nat)
    ensures n >= 1 && n >= s.attempts && (n == 1 || n == s.attempts)
  {
    if s.attempts < 1 then 1 else s.attempts
  }

  /** `base` times two to the power of `n`. */
  function Doubled(base: real, n: nat): (r: real)
    ensures base > 0.0 ==> r >= base
  {
    if n == 0 then base else 2.0 * Doubled(base, n - 1)
  }

  function Min(a: real, b: real): real { if a < b then a else b }
  function Max(a: real, b: real): real { if a < b then b else a }

  function Window(attempt: nat, s: Settings): real
    requires attempt >= 1
  {
    Min(Doubled(s.baseDelay, attempt - 1), s.cap)
  }

  /** The first window is the base delay; each further one is twice the one before, until the cap. */
  lemma WindowDoublesUpToTheCap(attempt: nat, s: Settings)
    requires attempt >= 1 && s.baseDelay > 0.0 && s.cap > 0.0
    ensures Window(1, s) == if s.baseDelay < s.cap then s.baseDelay else s.cap
    ensures Window(attempt + 1, s) == if 2.0 * Window(attempt, s) < s.cap then 2.0 * Window(attempt, s) else s.cap
  {
    assert Doubled(s.baseDelay, attempt - 1) > 0.0;
  }

  /** Every delay this attempt may wait for. */
  predicate IsWait(wait: real, attempt: nat, retryAfter: Option<real>, s: Settings)
    requires attempt >= 1
  {
    match retryAfter
    case Some(asked) => wait == Min(Max(asked, 0.0), s.cap)
    case None => Window(attempt, s) / 2.0 <= wait <= Window(attempt, s)
  }

  lemma WaitIsCapped(wait: real, attempt: nat, retryAfter: Option<real>, s: Settings)
    requires attempt >= 1 && s.baseDelay > 0.0 && s.cap > 0.0
    requires IsWait(wait, attempt, retryAfter, s)
    ensures 0.0 <= wait <= s.cap
  {
    assert Doubled(s.baseDelay, attempt - 1) > 0.0;
  }

  function Total(waits: seq<real>): real {
    if waits == [] then 0.0 else Total(waits[..|waits| - 1]) + waits[|waits| - 1]
  }

  function Times(n: nat, r: real): real {
    if n == 0 then 0.0 else Times(n - 1, r) + r
  }

  lemma {:induction false} TotalIsCapped(waits: seq<real>, cap: real)
    requires forall i :: 0 <= i < |waits| ==> waits[i] <= cap
    ensures Total(waits) <= Times(|waits|, cap)
  {
    if waits != [] {
      TotalIsCapped(waits[..|waits| - 1], cap);
    }
  }

  predicate MayRetry(a: Attempt) {
    if a.HttpError? then a.retryable else a.ending == Broke(true)
  }

  predicate Completes(a: Attempt) {
    a.Stream? && a.ending.Complete?
  }

  /** What the attempt publishes when every write of a chunk is answered. */
  function Published(a: Attempt): seq<string> {
    if a.Stream? then Deltas(a.texts) else []
  }

  /** The attempt may be repeated: it may in itself, and has published nothing. */
  predicate MayRepeat(a: Attempt) {
    MayRetry(a) && Published(a) == []
  }

  lemma CompletedIsLast(a: Attempt)
    requires Completes(a)
    ensures !MayRepeat(a)
  {
  }

  /** The first attempt that may not be repeated, or else the last one allowed. */
  predicate IsLastAttempt(script: nat -> Attempt, max: nat, n: nat) {
    && 1 <= n <= max
    && (forall i :: 1 <= i < n ==> MayRepeat(script(i)))
    && (n < max ==> !MayRepeat(script(n)))
  }

  lemma LastAttemptIsUnique(script: nat -> Attempt, max: nat, m: nat, n: nat)
    requires IsLastAttempt(script, max, m) && IsLastAttempt(script, max, n)
    ensures m == n
  {
  }

  /** A job gets its reply if and only if all attempts before some completed one, within the limit, may be repeated. */
  lemma CompletesIff(script: nat -> Attempt, max: nat, n: nat)
    requires IsLastAttempt(script, max, n)
    ensures Completes(script(n)) <==>
      exists m :: 1 <= m <= max && Completes(script(m)) && forall i :: 1 <= i < m ==> MayRepeat(script(i))
  {
    if m :| 1 <= m <= max && Completes(script(m)) && forall i :: 1 <= i < m ==> MayRepeat(script(i)) {
      assert IsLastAttempt(script, max, m);
    }
  }

  function AskedDelay(a: Attempt): Option<real> {
    if a.HttpError? then a.retryAfter else None
  }

  /** The i-th wait answers the i-th attempt. */
  predicate AreWaits(waits: seq<real>, script: nat -> Attempt, s: Settings) {
    forall i :: 0 <= i < |waits| ==> IsWait(waits[i], i + 1, AskedDelay(script(i + 1)), s)
  }

  lemma {:induction false} Scale(a: nat, b: nat, cap: real)
    requires a <= b && cap > 0.0
    ensures Times(a, cap) <= Times(b, cap)
  {
    if a < b { Scale(a, b - 1, cap); }
  }

  lemma WaitsAreCapped(waits: seq<real>, script: nat -> Attempt, s: Settings, n: nat)
    requires s.baseDelay > 0.0 && s.cap > 0.0 && |waits| <= n && AreWaits(waits, script, s)
    ensures Total(waits) <= Times(n, s.cap)
  {
    forall i | 0 <= i < |waits| ensures waits[i] <= s.cap {
      WaitIsCapped(waits[i], i + 1, AskedDelay(script(i + 1)), s);
    }
    TotalIsCapped(waits, s.cap);
    Scale(|waits|, n, s.cap);
  }

  lemma NoWaits(script: nat -> Attempt, s: Settings, n: nat)
    requires s.baseDelay > 0.0 && s.cap > 0.0
    ensures AreWaits([], script, s) && Total([]) <= Times(n, s.cap)
  {
    WaitsAreCapped([], script, s, n);
  }
}
