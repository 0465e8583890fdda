/**
 * The outbox table and the loops that drain it.
 */
module OutboxDrain {
  import opened Collections
  import opened EventBus

  /** Times are whole microseconds. */
  const SECOND := 1000000

  datatype Row = Row(envelope: Envelope, pending: bool, attempts: nat, nextAttempt: int)

  // Backoff.

  function Pow2(n: nat): nat {
    if n == 0 then 1 else 2 * Pow2(n - 1)
  }

  function BackoffSeconds(attempts: nat, cap: int): int {
    Min(cap, Max(1, Pow2(Min(attempts, 12))))
  }

  lemma {:induction false} Pow2Grows(a: nat, b: nat)
    requires a <= b
    ensures 1 <= Pow2(a) <= Pow2(b)
  {
    if a < b { Pow2Grows(a, b - 1); } else if a > 0 { Pow2Grows(a - 1, a - 1); }
  }

  /**
   * The wait is positive exactly when the cap is, never above the cap, never shrinks with more attempts, doubles
   * with each of the first twelve until the cap is reached, and stays put from the twelfth on.
   */
  lemma BackoffDoublesUpToTheCap(attempts: nat, cap: int)
    ensures BackoffSeconds(attempts, cap) <= cap
    ensures BackoffSeconds(attempts, cap) >= 1 <==> cap >= 1
    ensures BackoffSeconds(attempts, cap) <= BackoffSeconds(attempts + 1, cap)
    ensures attempts < 12 && cap >= 1 ==> BackoffSeconds(attempts + 1, cap) == Min(cap, 2 * BackoffSeconds(attempts, cap))
    ensures attempts >= 12 ==> BackoffSeconds(attempts, cap) == Min(cap, 4096)
  {
    Pow2Grows(Min(attempts, 12), Min(attempts + 1, 12));
    assert Pow2(12) == 4096;
  }

  // One batch.

  predicate IsDue(r: Row, now: int) {
    r.pending && r.nextAttempt <= now
  }

  /**
   * Positions of the due rows among the first `n` that nobody else has locked, in order; rows are kept in order of
   * creation. Locked rows are skipped rather than waited for.
   */
  function DueAmong(rows: seq<Row>, locked: set<nat>, now: int, n: nat): seq<nat>
    requires n <= |rows|
  {
    if n == 0 then []
    else if IsDue(rows[n - 1], now) && n - 1 !in locked then DueAmong(rows, locked, now, n - 1) + [n - 1]
    else DueAmong(rows, locked, now, n - 1)
  }

  function Due(rows: seq<Row>, locked: set<nat>, now: int): seq<nat> {
    DueAmong(rows, locked, now, |rows|)
  }

  /** How many due rows among the first `n` someone else has locked. */
  function HeldAmong(rows: seq<Row>, locked: set<nat>, now: int, n: nat): nat
    requires n <= |rows|
  {
    if n == 0 then 0 else HeldAmong(rows, locked, now, n - 1) + if IsDue(rows[n - 1], now) && n - 1 in locked then 1 else 0
  }

  function HeldByOthers(rows: seq<Row>, locked: set<nat>, now: int): nat {
    HeldAmong(rows, locked, now, |rows|)
  }

  function Picked(rows: seq<Row>, locked: set<nat>, now: int, limit: nat): seq<nat> {
    if |Due(rows, locked, now)| <= limit then Due(rows, locked, now) else Due(rows, locked, now)[..limit]
  }

  function Settle(r: Row, outcome: Outcome, now: int, cap: int): Row {
    if outcome.Acked? then r.(pending := false)
    else r.(attempts := r.attempts + 1, nextAttempt := now + BackoffSeconds(r.attempts + 1, cap) * SECOND)
  }

  predicate InRange(picked: seq<nat>, n: nat) {
    forall k :: 0 <= k < |picked| ==> picked[k] < n
  }

  /** The table after the picked rows have been sent, one after the other, with these outcomes. */
  function Drained(rows: seq<Row>, picked: seq<nat>, outcomes: seq<Outcome>, now: int, cap: int): (after: seq<Row>)
    requires InRange(picked, |rows|) && |outcomes| == |picked|
    ensures |after| == |rows|
  {
    if picked == [] then rows
    else
      var last := |picked| - 1;
      var before := Drained(rows, picked[..last], outcomes[..last], now, cap);
      before[picked[last] := Settle(before[picked[last]], outcomes[last], now, cap)]
  }

  /** What the broker has taken after them. */
  function Taken(rows: seq<Row>, picked: seq<nat>, outcomes: seq<Outcome>): seq<Envelope>
    requires InRange(picked, |rows|) && |outcomes| == |picked|
  {
    if picked == [] then []
    else
      var last := |picked| - 1;
      Taken(rows, picked[..last], outcomes[..last])
      + if outcomes[last].Rejected? then [] else [rows[picked[last]].envelope]
  }

  function CountAcked(outcomes: seq<Outcome>): nat {
    if outcomes == [] then 0
    else CountAcked(outcomes[..|outcomes| - 1]) + if outcomes[|outcomes| - 1].Acked? then 1 else 0
  }

  function Count(rows: seq<Row>, p: Row -> bool): nat {
    if rows == [] then 0 else Count(rows[..|rows| - 1], p) + if p(rows[|rows| - 1]) then 1 else 0
  }

  function IsPending(): Row -> bool { (r: Row) => r.pending }

  function DueAt(now: int): Row -> bool { (r: Row) => IsDue(r, now) }

  lemma {:induction false} CountAfterUpdate(rows: seq<Row>, i: nat, r: Row, p: Row -> bool)
    requires i < |rows|
    ensures Count(rows[i := r], p) + (if p(rows[i]) then 1 else 0) == Count(rows, p) + (if p(r) then 1 else 0)
  {
    var last := |rows| - 1;
    if i == last {
      assert rows[i := r][..last] == rows[..last];
    } else {
      assert rows[i := r][..last] == rows[..last][i := r];
      CountAfterUpdate(rows[..last], i, r, p);
    }
  }

  /** Positions picked by a batch: due and unlocked rows, oldest first, none twice, none skipped. */
  lemma {:induction false} DuePositions(rows: seq<Row>, locked: set<nat>, now: int, n: nat)
    requires n <= |rows|
    ensures var due := DueAmong(rows, locked, now, n);
      && (forall k :: 0 <= k < |due| ==> due[k] < n && IsDue(rows[due[k]], now) && due[k] !in locked)
      && (forall j, k :: 0 <= j < k < |due| ==> due[j] < due[k])
      && (forall i :: 0 <= i < n && IsDue(rows[i], now) && i !in locked ==> i in due)
  {
    hide IsDue;
    if n > 0 {
      DuePositions(rows, locked, now, n - 1);
      var due, before := DueAmong(rows, locked, now, n), DueAmong(rows, locked, now, n - 1);
      assert forall i :: i in before ==> i in due;
      if IsDue(rows[n - 1], now) && n - 1 !in locked { assert due[|due| - 1] == n - 1; }
    }
  }

  /** Due rows are those a batch may lock and those others hold. */
  lemma {:induction false} DueCount(rows: seq<Row>, locked: set<nat>, now: int, n: nat)
    requires n <= |rows|
    ensures |DueAmong(rows, locked, now, n)| + HeldAmong(rows, locked, now, n) == Count(rows[..n], DueAt(now))
  {
    hide IsDue;
    if n > 0 {
      DueCount(rows, locked, now, n - 1);
      assert rows[..n][..n - 1] == rows[..n - 1];
    }
  }

  lemma {:induction false} NothingHeld(rows: seq<Row>, now: int, n: nat)
    requires n <= |rows|
    ensures HeldAmong(rows, {}, now, n) == 0
  {
    if n > 0 { NothingHeld(rows, now, n - 1); }
  }

  predicate Increasing(picked: seq<nat>) {
    forall j, k :: 0 <= j < k < |picked| ==> picked[j] < picked[k]
  }

  lemma PickedIncreases(rows: seq<Row>, locked: set<nat>, now: int, limit: nat)
    ensures var picked := Picked(rows, locked, now, limit);
      && Increasing(picked) && InRange(picked, |rows|)
      && forall k :: 0 <= k < |picked| ==> IsDue(rows[picked[k]], now) && picked[k] !in locked
  {
    hide DueAmong, IsDue;
    DuePositions(rows, locked, now, |rows|);
    var due := Due(rows, locked, now);
    assert due == DueAmong(rows, locked, now, |rows|);
  }

  lemma {:induction false} DrainedElsewhere(rows: seq<Row>, picked: seq<nat>, outcomes: seq<Outcome>, now: int,
        cap: int, i: nat)
    requires InRange(picked, |rows|) && |outcomes| == |picked| && i < |rows|
    requires forall k :: 0 <= k < |picked| ==> picked[k] != i
    ensures Drained(rows, picked, outcomes, now, cap)[i] == rows[i]
  {
    if picked != [] {
      var last := |picked| - 1;
      DrainedElsewhere(rows, picked[..last], outcomes[..last], now, cap, i);
    }
  }

  /** One more row of a batch. */
  lemma DrainOneMore(rows: seq<Row>, picked: seq<nat>, outcomes: seq<Outcome>, outcome: Outcome, now: int, cap: int)
    requires InRange(picked, |rows|) && Increasing(picked) && |outcomes| < |picked|
    ensures var k := |outcomes|;
      && InRange(picked[..k], |rows|) && InRange(picked[..k + 1], |rows|)
      && var before := Drained(rows, picked[..k], outcomes, now, cap);
         before[picked[k]] == rows[picked[k]]
         && Drained(rows, picked[..k + 1], outcomes + [outcome], now, cap)
            == before[picked[k] := Settle(rows[picked[k]], outcome, now, cap)]
  {
    hide Settle;
    var k := |outcomes|;
    assert picked[..k + 1][..k] == picked[..k] && (outcomes + [outcome])[..k] == outcomes;
    DrainedElsewhere(rows, picked[..k], outcomes, now, cap, picked[k]);
  }

  lemma TakeOneMore(rows: seq<Row>, picked: seq<nat>, outcomes: seq<Outcome>, outcome: Outcome)
    requires InRange(picked, |rows|) && |outcomes| < |picked|
    ensures var k := |outcomes|;
      && InRange(picked[..k], |rows|) && InRange(picked[..k + 1], |rows|)
      && Taken(rows, picked[..k + 1], outcomes + [outcome])
         == Taken(rows, picked[..k], outcomes) + (if outcome.Rejected? then [] else [rows[picked[k]].envelope])
  {
    var k := |outcomes|;
    var more, upTo := outcomes + [outcome], picked[..k + 1];
    assert upTo[..k] == picked[..k] && more[..k] == outcomes && upTo[k] == picked[k] && more[k] == outcome;
  }

  lemma CountOneMore(outcomes: seq<Outcome>, outcome: Outcome)
    ensures CountAcked(outcomes + [outcome]) == CountAcked(outcomes) + (if outcome.Acked? then 1 else 0)
  {
    assert (outcomes + [outcome])[..|outcomes|] == outcomes;
  }

  // What a batch does to the table.

  predicate AllAcked(outcomes: seq<Outcome>) {
    forall k :: 0 <= k < |outcomes| ==> outcomes[k].Acked?
  }

  predicate AllAre(rows: seq<Row>, picked: seq<nat>, p: Row -> bool)
    requires InRange(picked, |rows|)
  {
    forall k :: 0 <= k < |picked| ==> p(rows[picked[k]])
  }

  /** Pending rows before are those after plus those published: no row is lost and none is counted twice. */
  lemma {:induction false} PendingIsConserved(rows: seq<Row>, picked: seq<nat>, outcomes: seq<Outcome>,
        now: int, cap: int)
    requires InRange(picked, |rows|) && Increasing(picked) && |outcomes| == |picked| && AllAre(rows, picked, IsPending())
    ensures Count(Drained(rows, picked, outcomes, now, cap), IsPending()) + CountAcked(outcomes) == Count(rows, IsPending())
  {
    if picked != [] {
      var last := |picked| - 1;
      PendingIsConserved(rows, picked[..last], outcomes[..last], now, cap);
      DrainedElsewhere(rows, picked[..last], outcomes[..last], now, cap, picked[last]);
      var before := Drained(rows, picked[..last], outcomes[..last], now, cap);
      assert IsPending()(rows[picked[last]]);
      CountAfterUpdate(before, picked[last], Settle(before[picked[last]], outcomes[last], now, cap), IsPending());
    }
  }

  /**
   * A row sent in this batch is not due again at the batch's own time, given a positive cap or an
   * answer to every send.
   */
  lemma {:induction false} SentRowsAreNotDue(rows: seq<Row>, picked: seq<nat>, outcomes: seq<Outcome>,
        now: int, cap: int)
    requires InRange(picked, |rows|) && Increasing(picked) && |outcomes| == |picked| && AllAre(rows, picked, DueAt(now))
    requires cap >= 1 || AllAcked(outcomes)
    ensures Count(Drained(rows, picked, outcomes, now, cap), DueAt(now)) + |picked| == Count(rows, DueAt(now))
  {
    if picked != [] {
      var last := |picked| - 1;
      SentRowsAreNotDue(rows, picked[..last], outcomes[..last], now, cap);
      DrainedElsewhere(rows, picked[..last], outcomes[..last], now, cap, picked[last]);
      var before := Drained(rows, picked[..last], outcomes[..last], now, cap);
      var settled := Settle(before[picked[last]], outcomes[last], now, cap);
      assert DueAt(now)(rows[picked[last]]);
      assert !IsDue(settled, now) by { BackoffDoublesUpToTheCap(rows[picked[last]].attempts + 1, cap); }
      CountAfterUpdate(before, picked[last], settled, DueAt(now));
    }
  }

  /**
   * Row by row: an answered send ends the row, any other failure adds an attempt and a wait; other rows
   * are untouched.
   */
  lemma {:induction false} EachRowIsSettled(rows: seq<Row>, picked: seq<nat>, outcomes: seq<Outcome>, now: int,
        cap: int, k: nat)
    requires InRange(picked, |rows|) && Increasing(picked) && |outcomes| == |picked| && k < |picked|
    ensures var after := Drained(rows, picked, outcomes, now, cap)[picked[k]];
      && (outcomes[k].Acked? ==>
            !after.pending && after.attempts == rows[picked[k]].attempts && after.envelope in Taken(rows, picked, outcomes))
      && (!outcomes[k].Acked? ==>
            after.pending == rows[picked[k]].pending && after.attempts == rows[picked[k]].attempts + 1
            && after.nextAttempt == now + BackoffSeconds(after.attempts, cap) * SECOND)
      && after.envelope == rows[picked[k]].envelope
  {
    hide BackoffSeconds;
    var last := |picked| - 1;
    if k < last {
      EachRowIsSettled(rows, picked[..last], outcomes[..last], now, cap, k);
    } else {
      DrainedElsewhere(rows, picked[..last], outcomes[..last], now, cap, picked[last]);
    }
  }

  /**
   * Only due rows that nobody holds have changed, and each that has changed is older than each that could have been
   * taken and was not.
   */
  ghost predicate TookTheOldest(before: seq<Row>, after: seq<Row>, locked: set<nat>, now: int) {
    && |after| == |before|
    && (forall k :: 0 <= k < |before| && after[k] != before[k] ==> IsDue(before[k], now) && k !in locked)
    && (forall i, k :: 0 <= k < |before| && WasLeft(before, after, locked, now, i) && after[k] != before[k] ==> k < i)
  }

  /** The row could have been taken and was not. */
  predicate WasLeft(before: seq<Row>, after: seq<Row>, locked: set<nat>, now: int, i: int)
    requires |after| == |before|
  {
    0 <= i < |before| && IsDue(before[i], now) && i !in locked && after[i] == before[i]
  }

  /** A due row that a batch has not picked comes behind all it has picked. */
  lemma PickedAreOldest(rows: seq<Row>, locked: set<nat>, now: int, limit: nat, i: nat)
    requires i < |rows| && IsDue(rows[i], now) && i !in locked && i !in Picked(rows, locked, now, limit)
    ensures forall k :: k in Picked(rows, locked, now, limit) ==> k < i
  {
    DuePositions(rows, locked, now, |rows|);
    hide DueAmong, IsDue;
    var due := Due(rows, locked, now);
    assert due == DueAmong(rows, locked, now, |rows|);
    assert i in due;
    var picked := Picked(rows, locked, now, limit);
    assert picked == due[..|picked|];
    var n :| 0 <= n < |due| && due[n] == i;
  }

  /** A row that was sent has changed. */
  lemma SentRowsChange(rows: seq<Row>, picked: seq<nat>, outcomes: seq<Outcome>, now: int, cap: int, k: nat)
    requires InRange(picked, |rows|) && Increasing(picked) && |outcomes| == |picked| && k < |picked|
    requires rows[picked[k]].pending
    ensures Drained(rows, picked, outcomes, now, cap)[picked[k]] != rows[picked[k]]
  {
    EachRowIsSettled(rows, picked, outcomes, now, cap, k);
  }

  lemma BatchTakesTheOldest(before: seq<Row>, after: seq<Row>, sent: seq<Envelope>, locked: set<nat>, now: int,
                            limit: nat, cap: int, outcomes: seq<Outcome>)
    requires BatchDone(before, after, sent, locked, now, limit, cap, outcomes)
    ensures TookTheOldest(before, after, locked, now)
  {
    var picked := Picked(before, locked, now, limit);
    PickedIncreases(before, locked, now, limit);
    forall k | 0 <= k < |before| && after[k] != before[k] ensures k in picked {
      if k !in picked { DrainedElsewhere(before, picked, outcomes, now, cap, k); }
    }
    forall i, k | 0 <= k < |before| && WasLeft(before, after, locked, now, i) && after[k] != before[k]
      ensures k < i
    {
      if i in picked {
        var n :| 0 <= n < |picked| && picked[n] == i;
        SentRowsChange(before, picked, outcomes, now, cap, n);
      }
      PickedAreOldest(before, locked, now, limit, i);
    }
  }

  /** A row whose send failed is due again exactly when its wait, counted from the batch, is over. */
  lemma FailedRowIsDueAfterItsWait(r: Row, outcome: Outcome, now: int, cap: int, time: int)
    ensures var after := Settle(r, outcome, now, cap);
      IsDue(after, time) <==>
        !outcome.Acked? && r.pending && time >= now + BackoffSeconds(r.attempts + 1, cap) * 1_000_000
  {
  }

  /** One batch took the table from `before` to `after` and gave the broker `sent`. */
  ghost predicate BatchDone(before: seq<Row>, after: seq<Row>, sent: seq<Envelope>, locked: set<nat>, now: int,
                            limit: nat, cap: int, outcomes: seq<Outcome>) {
    var picked := Picked(before, locked, now, limit);
    && InRange(picked, |before|) && |outcomes| == |picked|
    && after == Drained(before, picked, outcomes, now, cap)
    && sent == Taken(before, picked, outcomes)
  }

  lemma {:induction false} CountAckedBounds(outcomes: seq<Outcome>)
    ensures CountAcked(outcomes) <= |outcomes|
    ensures CountAcked(outcomes) == |outcomes| <==> AllAcked(outcomes)
  {
    if outcomes != [] {
      var last := |outcomes| - 1;
      CountAckedBounds(outcomes[..last]);
      assert AllAcked(outcomes) <==> AllAcked(outcomes[..last]) && outcomes[last].Acked?;
    }
  }

  /** A batch publishes as many rows as stop being pending, and sends every due row it may lock up to its limit. */
  lemma BatchCounts(before: seq<Row>, after: seq<Row>, sent: seq<Envelope>, locked: set<nat>, now: int, limit: nat,
                    cap: int, outcomes: seq<Outcome>)
    requires BatchDone(before, after, sent, locked, now, limit, cap, outcomes)
    ensures Count(after, IsPending()) + CountAcked(outcomes) == Count(before, IsPending())
    ensures cap >= 1 || AllAcked(outcomes) ==> Count(after, DueAt(now)) + |outcomes| == Count(before, DueAt(now))
    ensures |outcomes| == Min(limit, |Due(before, locked, now)|)
    ensures |Due(before, locked, now)| + HeldByOthers(before, locked, now) == Count(before, DueAt(now))
  {
    var picked := Picked(before, locked, now, limit);
    PickedIncreases(before, locked, now, limit);
    assert AllAre(before, picked, IsPending()) && AllAre(before, picked, DueAt(now));
    PendingIsConserved(before, picked, outcomes, now, cap);
    if cap >= 1 || AllAcked(outcomes) { SentRowsAreNotDue(before, picked, outcomes, now, cap); }
    DueCount(before, locked, now, |before|);
    assert before[..|before|] == before;
  }

  /** Sending changes the count of rows due at some time by at most one each. */
  lemma {:induction false} EachSendCountsOnce(rows: seq<Row>, picked: seq<nat>, outcomes: seq<Outcome>, now: int, cap: int,
                                              p: Row -> bool)
    requires InRange(picked, |rows|) && |outcomes| == |picked|
    ensures Count(Drained(rows, picked, outcomes, now, cap), p) + |picked| >= Count(rows, p)
  {
    hide Settle, Count;
    if picked != [] {
      var last := |picked| - 1;
      EachSendCountsOnce(rows, picked[..last], outcomes[..last], now, cap, p);
      var before := Drained(rows, picked[..last], outcomes[..last], now, cap);
      CountAfterUpdate(before, picked[last], Settle(before[picked[last]], outcomes[last], now, cap), p);
    }
  }

  lemma BatchEndsAtMost(before: seq<Row>, after: seq<Row>, sent: seq<Envelope>, locked: set<nat>, now: int, limit: nat,
                        cap: int, outcomes: seq<Outcome>, time: int)
    requires BatchDone(before, after, sent, locked, now, limit, cap, outcomes)
    ensures Count(after, DueAt(time)) + |outcomes| >= Count(before, DueAt(time))
  {
    EachSendCountsOnce(before, Picked(before, locked, now, limit), outcomes, now, cap, DueAt(time));
  }

  /** What is due is still due later. */
  lemma {:induction false} DueLater(rows: seq<Row>, time: int, later: int)
    requires time <= later
    ensures Count(rows, DueAt(time)) <= Count(rows, DueAt(later))
  {
    if rows != [] {
      DueLater(rows[..|rows| - 1], time, later);
      assert IsDue(rows[|rows| - 1], time) ==> IsDue(rows[|rows| - 1], later);
    }
  }

  // Other drains.

  /** What other drains may do to the table: end rows, or add attempts to them. */
  predicate OthersDrained(before: seq<Row>, after: seq<Row>) {
    && |after| == |before|
    && forall i :: 0 <= i < |before| ==> after[i].envelope == before[i].envelope && (after[i].pending ==> before[i].pending)
  }

  lemma {:induction false} OthersOnlyEndRows(before: seq<Row>, after: seq<Row>)
    requires OthersDrained(before, after)
    ensures Count(after, IsPending()) <= Count(before, IsPending())
  {
    if before != [] {
      var last := |before| - 1;
      OthersOnlyEndRows(before[..last], after[..last]);
      assert IsPending()(after[last]) ==> IsPending()(before[last]);
    }
  }

  lemma {:induction false} CountOfSum(a: seq<Row>, b: seq<Row>, p: Row -> bool)
    ensures Count(a + b, p) == Count(a, p) + Count(b, p)
  {
    if b == [] {
      assert a + b == a;
    } else {
      var last := |b| - 1;
      assert (a + b)[..|a + b| - 1] == a + b[..last];
      CountOfSum(a, b[..last], p);
    }
  }

  /** How many pending rows producers committed before the first `n` batches. */
  function Arrived(arrivals: seq<seq<Row>>, n: nat): nat
    requires n <= |arrivals|
  {
    if n == 0 then 0 else Arrived(arrivals, n - 1) + Count(arrivals[n - 1], IsPending())
  }

  /** As many of the picked rows as there are outcomes have been sent. */
  ghost predicate IsSent(start: seq<Row>, log: seq<Envelope>, picked: seq<nat>, outcomes: seq<Outcome>, now: int, cap: int,
                         rows: seq<Row>, taken: seq<Envelope>, published: nat) {
    && InRange(picked, |start|) && Increasing(picked) && |outcomes| <= |picked|
    && rows == Drained(start, picked[..|outcomes|], outcomes, now, cap)
    && taken == log + Taken(start, picked[..|outcomes|], outcomes)
    && published == CountAcked(outcomes)
  }

  lemma PickedIsThere(picked: seq<nat>, n: nat, k: nat)
    requires InRange(picked, n) && k < |picked|
    ensures picked[k] < n
  {
  }

  lemma NothingSent(rows: seq<Row>, taken: seq<Envelope>, picked: seq<nat>, now: int, cap: int)
    requires InRange(picked, |rows|) && Increasing(picked)
    ensures IsSent(rows, taken, picked, [], now, cap, rows, taken, 0)
  {
    StartOfBatch(rows, now, cap);
  }

  lemma OneMoreIsSent(start: seq<Row>, log: seq<Envelope>, picked: seq<nat>, outcomes: seq<Outcome>, outcome: Outcome,
                      now: int, cap: int, rows: seq<Row>, taken: seq<Envelope>, published: nat)
    requires IsSent(start, log, picked, outcomes, now, cap, rows, taken, published) && |outcomes| < |picked|
    ensures InRange(picked, |start|) && |rows| == |start|
    ensures var i := picked[|outcomes|];
      && rows[i].envelope == start[i].envelope
      && IsSent(start, log, picked, outcomes + [outcome], now, cap, rows[i := Settle(rows[i], outcome, now, cap)],
                taken + (if outcome.Rejected? then [] else [rows[i].envelope]), published + if outcome.Acked? then 1 else 0)
  {
    DrainOneMore(start, picked, outcomes, outcome, now, cap);
    TakeOneMore(start, picked, outcomes, outcome);
    CountOneMore(outcomes, outcome);
    hide Drained, Taken, CountAcked, Settle;
  }

  lemma AllAreSent(start: seq<Row>, log: seq<Envelope>, picked: seq<nat>, outcomes: seq<Outcome>, now: int, cap: int,
                   rows: seq<Row>, taken: seq<Envelope>, published: nat)
    requires IsSent(start, log, picked, outcomes, now, cap, rows, taken, published) && |outcomes| == |picked|
    ensures InRange(picked, |start|) && rows == Drained(start, picked, outcomes, now, cap)
    ensures taken == log + Taken(start, picked, outcomes) && published == CountAcked(outcomes)
  {
    assert picked[..|picked|] == picked;
  }

  lemma NothingArrived(arrivals: seq<seq<Row>>)
    ensures Arrived(arrivals, 0) == 0
  {
  }

  class Table {
    var rows: seq<Row>
    /** What the broker has taken, in order. */
    var taken: seq<Envelope>
    /** Publishes that were answered, and commits that were not. */
    ghost var acks: nat
    ghost var lostCommits: nat

    constructor (rows: seq<Row>)
      ensures this.rows == rows && taken == [] && acks == lostCommits == 0
    {
      this.rows, taken, acks, lostCommits := rows, [], 0, 0;
    }

    method Publish(e: Envelope) returns (outcome: Outcome)
      modifies this`taken, this`acks
      ensures taken == old(taken) + if outcome.Rejected? then [] else [e]
      ensures acks == old(acks) + if outcome.Acked? then 1 else 0
    {
      outcome := *;
      if !outcome.Rejected? { taken := taken + [e]; }
      if outcome.Acked? { acks := acks + 1; }
    }

    /** Commits the rows, or leaves them as they were at the start; the answer can be lost. */
    method Commit(start: seq<Row>) returns (ok: bool)
      modifies this`rows, this`lostCommits
      ensures rows == old(rows) || (!ok && rows == start)
      ensures lostCommits == old(lostCommits) + if ok then 0 else 1
    {
      var committed, answered: bool := *, *;
      if !committed { rows := start; }
      ok := committed && answered;
      if !ok { lostCommits := lostCommits + 1; }
    }

    method SendRow(i: nat, now: int, cap: int) returns (outcome: Outcome)
      requires i < |rows|
      modifies this`rows, this`taken, this`acks
      ensures acks == old(acks) + if outcome.Acked? then 1 else 0
      ensures rows == old(rows)[i := Settle(old(rows)[i], outcome, now, cap)]
      ensures taken == old(taken) + if outcome.Rejected? then [] else [old(rows)[i].envelope]
    {
      var row := rows[i];
      outcome := Publish(row.envelope);
      if outcome.Acked? {
        rows := rows[i := row.(pending := false)];
      } else {
        var attempts := row.attempts + 1;
        var delay := BackoffSeconds(attempts, cap);
        rows := rows[i := row.(attempts := attempts, nextAttempt := now + delay * SECOND)];
      }
    }

    /** Sends the picked rows one after the other. */
    method SendPicked(picked: seq<nat>, now: int, cap: int) returns (published: nat, outcomes: seq<Outcome>)
      requires InRange(picked, |rows|) && Increasing(picked)
      modifies this`rows, this`taken, this`acks
      ensures |outcomes| == |picked| && InRange(picked, |old(rows)|)
      ensures rows == Drained(old(rows), picked, outcomes, now, cap)
      ensures taken == old(taken) + Taken(old(rows), picked, outcomes)
      ensures published == CountAcked(outcomes) == acks - old(acks)
    {
      published, outcomes := 0, [];
      ghost var start, log := rows, taken;
      NothingSent(rows, taken, picked, now, cap);
      assert |rows| == |start|;
      hide IsSent, Settle, InRange, Increasing;
      var k := 0;
      while k < |picked|
        invariant 0 <= k <= |picked| && k == |outcomes| && |rows| == |start|
        invariant IsSent(start, log, picked, outcomes, now, cap, rows, taken, published)
        invariant published == acks - old(acks)
      {
        assert picked[k] < |rows| by { PickedIsThere(picked, |start|, k); }
        ghost var rowsBefore, takenBefore := rows, taken;
        var outcome := SendRow(picked[k], now, cap);
        OneMoreIsSent(start, log, picked, outcomes, outcome, now, cap, rowsBefore, takenBefore, published);
        if outcome.Acked? { published := published + 1; }
        outcomes := outcomes + [outcome];
        k := k + 1;
      }
      AllAreSent(start, log, picked, outcomes, now, cap, rows, taken, published);
    }

    /**
     * One transaction over the oldest due rows that nobody else has locked. Without a broker it does nothing. A
     * commit that fails raises, and has taken effect or not; what was sent stays sent.
     */
    method DrainOutboxBatch(up: bool, locked: set<nat>, now: int, limit: nat, cap: int)
      returns (ok: bool, published: nat, outcomes: seq<Outcome>, ghost sent: seq<Envelope>, ghost drained: seq<Row>)
      modifies this
      ensures lostCommits >= old(lostCommits) && (ok <==> lostCommits == old(lostCommits))
      ensures published == acks - old(acks)
      ensures !up ==> ok && published == 0 && outcomes == [] && rows == old(rows) && sent == []
      ensures up ==> BatchDone(old(rows), drained, sent, locked, now, limit, cap, outcomes)
      ensures up ==> TookTheOldest(old(rows), drained, locked, now)
      ensures up ==> rows == drained || (!ok && rows == old(rows))
      ensures taken == old(taken) + sent && published == CountAcked(outcomes)
    {
      ok, published, outcomes, sent, drained := true, 0, [], [], rows;
      if !up { return; }
      var start := rows;
      var picked := Picked(rows, locked, now, limit);
      PickedIncreases(rows, locked, now, limit);
      hide Drained, Taken, CountAcked, Picked, IsDue, TookTheOldest;
      published, outcomes := SendPicked(picked, now, cap);
      sent, drained := Taken(start, picked, outcomes), rows;
      BatchTakesTheOldest(start, drained, sent, locked, now, limit, cap, outcomes);
      ok := Commit(start);
    }

    /** The time now; it does not run backwards. */
    method Clock(last: int) returns (now: int)
      ensures now >= last
    {
      now :| now >= last;
    }

    /** The dry run: how many rows are due, locked or not. */
    method WouldPublish(since: int) returns (count: nat, now: int)
      ensures now >= since && count == Count(rows, DueAt(now))
    {
      now := Clock(since);
      count := |Due(rows, {}, now)|;
      DueCount(rows, {}, now, |rows|);
      NothingHeld(rows, now, |rows|);
      assert rows[..|rows|] == rows;
    }

    /** Other drains at work; tells how many rows they ended. */
    method OtherDrains() returns (ghost ended: nat, ghost quiet: bool)
      modifies this`rows, this`taken
      ensures OthersDrained(old(rows), rows)
      ensures ended + Count(rows, IsPending()) == Count(old(rows), IsPending())
      ensures quiet <==> rows == old(rows)
    {
      ghost var before := rows;
      var after: seq<Row> := *;
      var more: seq<Envelope> := *;
      if OthersDrained(rows, after) {
        rows := after;
        taken := taken + more;
      }
      OthersOnlyEndRows(before, rows);
      ended, quiet := Count(before, IsPending()) - Count(rows, IsPending()), rows == before;
    }

    /** Between two batches: other drains at work, and what producers commit next, if there is more. */
    method Meanwhile(arrivals: seq<seq<Row>>, i: nat) returns (next: nat, ghost ended: nat, ghost quiet: bool)
      requires i <= |arrivals|
      modifies this`rows, this`taken
      ensures i <= next <= |arrivals| && (next == i ==> i == |arrivals|)
      ensures ended + Count(rows, IsPending()) + Arrived(arrivals, i)
           == Count(old(rows), IsPending()) + Arrived(arrivals, next)
      ensures quiet ==> rows == old(rows) && ended == 0 && Arrived(arrivals, next) == Arrived(arrivals, i)
    {
      next := i;
      ended, quiet := OtherDrains();
      if i < |arrivals| {
        CountOfSum(rows, arrivals[i], IsPending());
        quiet := quiet && arrivals[i] == [];
        rows := rows + arrivals[i];
        next := i + 1;
      }
    }

    /**
     * Drains batch after batch until one publishes nothing. It ends when producers do: without new rows every other
     * batch leaves fewer rows pending. Other drains may hold rows and work between the batches, and producers commit
     * `arrivals`, of which the loop saw the first `seen`. `before`, `held`, `now` and `outcomes` describe the last batch;
     * `ended` counts the rows others ended; `alone` says there were no others and no new rows, and `answered` that every
     * send got its answer.
     */
    method SweepOutbox(up: bool, since: int, limit: nat, cap: int, arrivals: seq<seq<Row>>)
      returns (raised: bool, published: nat, errors: nat, ghost ended: nat, ghost seen: nat, ghost alone: bool,
               ghost answered: bool, ghost first: int, ghost before: seq<Row>, ghost held: set<nat>, ghost now: int,
               ghost outcomes: seq<Outcome>)
      modifies this
      ensures seen <= |arrivals|
      ensures lostCommits >= old(lostCommits) && (raised <==> lostCommits != old(lostCommits))
      ensures !raised ==> published == acks - old(acks)
      ensures !up ==> !raised && errors == 1 && published == 0 && rows == old(rows) && taken == old(taken)
      ensures up && !raised ==>
        && errors == 0
        && published + ended + Count(rows, IsPending()) == Count(old(rows), IsPending()) + Arrived(arrivals, seen)
      ensures up && !raised ==>
        (exists sent :: BatchDone(before, rows, sent, held, now, limit, cap, outcomes)) && CountAcked(outcomes) == 0
      ensures up && !raised && alone && answered && limit >= 1 ==>
        && Count(old(rows), DueAt(first)) <= published <= Count(old(rows), IsPending())
        && (now == first ==> published == Count(old(rows), DueAt(first)))
    {
      raised, published, errors, ended, seen := false, 0, 0, 0, 0;
      first, before, held, now, outcomes, answered, alone := since, rows, {}, since, [], true, true;
      if !up {
        errors := errors + 1;
        return;
      }
      hide BatchDone, CountAcked, Count, Picked, IsDue, AllAcked, HeldByOthers, Due, OthersDrained, Arrived;
      assert Arrived(arrivals, 0) == 0 by { NothingArrived(arrivals); }
      ghost var start := rows;
      var total: nat, n: nat, i: nat := 0, 1, 0;
      var time := Clock(since);
      first, now := time, time;
      while n != 0
        invariant first <= now <= time && i == seen <= |arrivals|
        invariant total == acks - old(acks) && lostCommits == old(lostCommits)
        invariant total + ended + Count(rows, IsPending()) == Count(start, IsPending()) + Arrived(arrivals, i)
        invariant n == 0 ==>
          (exists sent :: BatchDone(before, rows, sent, held, now, limit, cap, outcomes)) && CountAcked(outcomes) == 0
        invariant n == 0 && alone && answered && limit >= 1 ==> Count(rows, DueAt(now)) == 0
        invariant alone ==> ended == 0 && Arrived(arrivals, i) == 0
        invariant alone && answered ==> total + Count(rows, DueAt(first)) >= Count(start, DueAt(first))
        invariant alone && answered && now == first ==> total + Count(rows, DueAt(first)) == Count(start, DueAt(first))
        decreases |arrivals| - i, n != 0, Count(rows, IsPending())
      {
        ghost var more, quiet;
        i, more, quiet := Meanwhile(arrivals, i);
        ended, seen := ended + more, i;
        var locked: set<nat> := *;
        alone := alone && quiet && locked == {};
        before, held, now := rows, locked, time;
        var ok;
        ghost var sent, drained;
        ok, n, outcomes, sent, drained := DrainOutboxBatch(true, locked, time, limit, cap);
        if !ok {
          raised := true;
          return;
        }
        BatchCounts(before, rows, sent, locked, now, limit, cap, outcomes);
        BatchEndsAtMost(before, rows, sent, locked, now, limit, cap, outcomes, first);
        CountAckedBounds(outcomes);
        if locked == {} { NoneHeld(before, now); }
        answered := answered && AllAcked(outcomes);
        total := total + n;
        time := Clock(time);
      }
      DueLater(rows, first, now);
      published := total;
    }
  }

  lemma NoneHeld(rows: seq<Row>, now: int)
    ensures HeldByOthers(rows, {}, now) == 0
  {
    NothingHeld(rows, now, |rows|);
  }

  lemma StartOfBatch(rows: seq<Row>, now: int, cap: int)
    ensures rows == Drained(rows, [], [], now, cap) && Taken(rows, [], []) == [] && CountAcked([]) == 0
  {
  }

  /**
   * A sweep stops after a batch that published nothing. With a positive cap and limit, due rows are left behind
   * exactly when that batch was full or others held some, so a batch of failing rows hides the rows behind it.
   */
  lemma SweepLeavesDueRowsIff(before: seq<Row>, after: seq<Row>, sent: seq<Envelope>, locked: set<nat>, now: int,
                              limit: nat, cap: int, outcomes: seq<Outcome>)
    requires BatchDone(before, after, sent, locked, now, limit, cap, outcomes) && CountAcked(outcomes) == 0
    requires cap >= 1 && limit >= 1
    ensures Count(after, DueAt(now)) > 0 <==> |Due(before, locked, now)| > limit || HeldByOthers(before, locked, now) > 0
  {
    BatchCounts(before, after, sent, locked, now, limit, cap, outcomes);
  }
}
