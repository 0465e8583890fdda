/**
 * The drain loop of one process is a run of the bus: locking its rows, sending them one by one, and committing.
 */
module OutboxRefinement {
  import opened EventBus
  import opened OutboxDrain

  /** The bus sees of a row its envelope and whether it is done; rows are known by their place. */
  predicate Corresponds(rows: seq<Row>, outbox: map<RowId, OutboxRow>) {
    && (forall i :: i in outbox ==> i < |rows|)
    && (forall i :: 0 <= i < |rows| ==> i in outbox && outbox[i] == OutboxRow(rows[i].envelope, !rows[i].pending))
  }

  /** The bus after the drain has sent as many rows as there are outcomes. */
  function SendAll(b: Bus, d: nat, outcomes: seq<Outcome>): Bus {
    if outcomes == [] then b
    else Apply(SendAll(b, d, outcomes[..|outcomes| - 1]), Drains(DrainNext(d, outcomes[|outcomes| - 1])))
  }

  function AckedOf(picked: seq<nat>, outcomes: seq<Outcome>): set<RowId>
    requires |outcomes| <= |picked|
  {
    set k | 0 <= k < |outcomes| && outcomes[k].Acked? :: picked[k]
  }

  /** The whole drain. */
  function DrainRun(b: Bus, d: nat, picked: seq<nat>, outcomes: seq<Outcome>): Bus {
    Apply(SendAll(Apply(b, Drains(BeginDrain(d, picked))), d, outcomes), Drains(CommitDrain(d)))
  }

  ghost predicate IsHalfway(b: Bus, now: Bus, d: nat, rows: seq<Row>, picked: seq<nat>, outcomes: seq<Outcome>)
    requires InRange(picked, |rows|) && |outcomes| <= |picked|
  {
    && now.made == b.made && now.store == b.store && now.letters == b.letters
    && now.outbox == Outbox(b.outbox.rows, b.outbox.drains[d := Drain((set r | r in picked), picked[|outcomes|..], AckedOf(picked, outcomes))])
    && now.accepted == b.accepted + multiset(Taken(rows, picked[..|outcomes|], outcomes))
  }

  lemma AckedOneMore(picked: seq<nat>, outcomes: seq<Outcome>, outcome: Outcome)
    requires |outcomes| < |picked|
    ensures AckedOf(picked, outcomes + [outcome])
         == AckedOf(picked, outcomes) + (if outcome.Acked? then {picked[|outcomes|]} else {})
  {
    var more := outcomes + [outcome];
    assert more[|outcomes|] == outcome;
    forall r ensures r in AckedOf(picked, more) <==> r in AckedOf(picked, outcomes) || (outcome.Acked? && r == picked[|outcomes|]) {
      if r in AckedOf(picked, outcomes) {
        var k :| 0 <= k < |outcomes| && outcomes[k].Acked? && picked[k] == r;
        assert more[k].Acked?;
      }
      if outcome.Acked? && r == picked[|outcomes|] { assert more[|outcomes|].Acked?; }
    }
  }

  lemma SendOneMore(b: Bus, now: Bus, d: nat, rows: seq<Row>, picked: seq<nat>, outcomes: seq<Outcome>, outcome: Outcome)
    requires InRange(picked, |rows|) && |outcomes| < |picked| && Corresponds(rows, b.outbox.rows)
    requires IsHalfway(b, now, d, rows, picked, outcomes)
    ensures IsHalfway(b, Apply(now, Drains(DrainNext(d, outcome))), d, rows, picked, outcomes + [outcome])
  {
    hide AckedOf, Taken, Ingested, Producer, Replayer;
    var k := |outcomes|;
    var e := rows[picked[k]].envelope;
    assert picked[k] in b.outbox.rows && b.outbox.rows[picked[k]].envelope == e;
    hide Corresponds;
    AckedOneMore(picked, outcomes, outcome);
    GivenOneMore(rows, picked, outcomes, outcome);
    hide Apply, InRange;
    NextSend(now, d, picked, k, outcome);
  }

  lemma GivenOneMore(rows: seq<Row>, picked: seq<nat>, outcomes: seq<Outcome>, outcome: Outcome)
    requires InRange(picked, |rows|) && |outcomes| < |picked|
    ensures var k := |outcomes|;
      && InRange(picked[..k], |rows|) && InRange(picked[..k + 1], |rows|)
      && multiset(Taken(rows, picked[..k + 1], outcomes + [outcome]))
         == multiset(Taken(rows, picked[..k], outcomes))
            + (if outcome.Rejected? then multiset{} else multiset{rows[picked[k]].envelope})
  {
    TakeOneMore(rows, picked, outcomes, outcome);
    hide Taken;
    var before := Taken(rows, picked[..|outcomes|], outcomes);
    assert before + [] == before;
  }

  /** What the next send does to the open transaction and to the broker. */
  lemma NextSend(now: Bus, d: nat, picked: seq<nat>, k: nat, outcome: Outcome)
    requires k < |picked| && d in now.outbox.drains && now.outbox.drains[d].left == picked[k..] && picked[k] in now.outbox.rows
    ensures var tx, after := now.outbox.drains[d], Apply(now, Drains(DrainNext(d, outcome)));
      && after.made == now.made && after.store == now.store && after.letters == now.letters
      && after.outbox.rows == now.outbox.rows
      && after.outbox.drains == now.outbox.drains[d :=
           Drain(tx.locked, picked[k + 1..], tx.marked + (if outcome.Acked? then {picked[k]} else {}))]
      && after.accepted == now.accepted + (if outcome.Rejected? then multiset{} else multiset{now.outbox.rows[picked[k]].envelope})
  {
    var tx := now.outbox.drains[d];
    assert tx.left[0] == picked[k] && tx.left[1..] == picked[k + 1..];
    assert !outcome.Acked? ==> tx.marked + {} == tx.marked;
  }

  lemma {:induction false} SendAllIs(b: Bus, begun: Bus, d: nat, rows: seq<Row>, picked: seq<nat>, outcomes: seq<Outcome>)
    requires InRange(picked, |rows|) && |outcomes| <= |picked| && Corresponds(rows, b.outbox.rows)
    requires IsHalfway(b, begun, d, rows, picked, [])
    ensures IsHalfway(b, SendAll(begun, d, outcomes), d, rows, picked, outcomes)
  {
    hide IsHalfway, Apply, Corresponds;
    if outcomes != [] {
      var last := |outcomes| - 1;
      SendAllIs(b, begun, d, rows, picked, outcomes[..last]);
      SendOneMore(b, SendAll(begun, d, outcomes[..last]), d, rows, picked, outcomes[..last], outcomes[last]);
      assert outcomes[..last] + [outcomes[last]] == outcomes;
    }
  }

  /** A row is marked by the drain exactly when the loop ends it; nothing else about it matters to the bus. */
  lemma MarksAreSettlements(rows: seq<Row>, picked: seq<nat>, outcomes: seq<Outcome>, now: int, cap: int, i: nat)
    requires InRange(picked, |rows|) && Increasing(picked) && |outcomes| == |picked| && i < |rows|
    ensures var after := Drained(rows, picked, outcomes, now, cap)[i];
      after.envelope == rows[i].envelope && (!after.pending <==> !rows[i].pending || i in AckedOf(picked, outcomes))
  {
    if i in picked {
      var k :| 0 <= k < |picked| && picked[k] == i;
      EachRowIsSettled(rows, picked, outcomes, now, cap, k);
      hide Drained;
      assert i in AckedOf(picked, outcomes) <==> outcomes[k].Acked?;
    } else {
      DrainedElsewhere(rows, picked, outcomes, now, cap, i);
      hide Drained;
    }
  }

  /** The rows that open drains have locked. */
  function LockedBy(drains: map<nat, Drain>): set<RowId> {
    set d, r | d in drains && r in drains[d].locked :: r
  }

  lemma LockedByIsLocked(drains: map<nat, Drain>, r: RowId)
    ensures r in LockedBy(drains) <==> IsLocked(drains, r)
  {
  }

  /**
   * Whatever other drains are open and whatever the sends came to, the table after a batch corresponds to the bus
   * after the drain, the broker has been given the same envelopes, and no other drain and no other part of the bus has
   * changed.
   */
  lemma BatchIsADrain(b: Bus, d: nat, rows: seq<Row>, now: int, limit: nat, cap: int, outcomes: seq<Outcome>)
    requires Corresponds(rows, b.outbox.rows) && d !in b.outbox.drains
    requires |outcomes| == |Picked(rows, LockedBy(b.outbox.drains), now, limit)|
    ensures var picked := Picked(rows, LockedBy(b.outbox.drains), now, limit);
      var after := DrainRun(b, d, picked, outcomes);
      && InRange(picked, |rows|)
      && Corresponds(Drained(rows, picked, outcomes, now, cap), after.outbox.rows)
      && after.outbox.drains == b.outbox.drains
      && after.accepted == b.accepted + multiset(Taken(rows, picked, outcomes))
      && after.made == b.made && after.store == b.store && after.letters == b.letters
  {
    var picked := Picked(rows, LockedBy(b.outbox.drains), now, limit);
    PickedIncreases(rows, LockedBy(b.outbox.drains), now, limit);
    BeginsHalfway(b, d, rows, now, limit);
    SendAllIs(b, Apply(b, Drains(BeginDrain(d, picked))), d, rows, picked, outcomes);
    CommitsToTheTable(b, SendAll(Apply(b, Drains(BeginDrain(d, picked))), d, outcomes), d, rows, picked, outcomes, now, cap);
    hide SendAll, Apply, Picked, Drained, Taken;
  }

  lemma BatchMayLock(b: Bus, rows: seq<Row>, now: int, limit: nat)
    requires Corresponds(rows, b.outbox.rows)
    ensures CanLock(b.outbox, Picked(rows, LockedBy(b.outbox.drains), now, limit))
  {
    var locked := LockedBy(b.outbox.drains);
    PickedIncreases(rows, locked, now, limit);
    hide Picked, LockedBy;
    var picked := Picked(rows, locked, now, limit);
    forall r | r in picked
      ensures r in b.outbox.rows && !b.outbox.rows[r].published && !IsLocked(b.outbox.drains, r)
    {
      var k :| 0 <= k < |picked| && picked[k] == r;
      LockedByIsLocked(b.outbox.drains, r);
    }
  }

  lemma BeginsHalfway(b: Bus, d: nat, rows: seq<Row>, now: int, limit: nat)
    requires Corresponds(rows, b.outbox.rows) && d !in b.outbox.drains
    ensures var picked := Picked(rows, LockedBy(b.outbox.drains), now, limit);
      InRange(picked, |rows|) && IsHalfway(b, Apply(b, Drains(BeginDrain(d, picked))), d, rows, picked, [])
  {
    var picked := Picked(rows, LockedBy(b.outbox.drains), now, limit);
    PickedIncreases(rows, LockedBy(b.outbox.drains), now, limit);
    BatchMayLock(b, rows, now, limit);
    assert AckedOf(picked, []) == {} && picked[0..] == picked && picked[..0] == [];
    assert Taken(rows, [], []) == [];
    hide Picked, AckedOf, Taken, CanLock;
  }

  /**
   * Two drains over one table: while the first is open, a second batch at the same time begins with the oldest due
   * rows the first has left, and both hold their rows.
   */
  lemma SecondDrainTakesTheNextRows(b: Bus, d: nat, e: nat, rows: seq<Row>, now: int, limit: nat)
    requires Corresponds(rows, b.outbox.rows) && d !in b.outbox.drains && e !in b.outbox.drains && d != e
    ensures var first := Picked(rows, LockedBy(b.outbox.drains), now, limit);
      var one := Apply(b, Drains(BeginDrain(d, first)));
      var second := Picked(rows, LockedBy(one.outbox.drains), now, limit);
      var two := Apply(one, Drains(BeginDrain(e, second)));
      && (forall r :: r in second ==> r !in first)
      && d in two.outbox.drains && two.outbox.drains[d].left == first
      && e in two.outbox.drains && two.outbox.drains[e].left == second
      && (forall i :: 0 <= i < |rows| && IsDue(rows[i], now) && i !in LockedBy(b.outbox.drains) && i !in first ==>
            i in Due(rows, LockedBy(one.outbox.drains), now))
  {
    hide Picked, LockedBy, CanLock, Apply, Due, IsDue, Corresponds;
    var first := Picked(rows, LockedBy(b.outbox.drains), now, limit);
    BatchMayLock(b, rows, now, limit);
    BeginIs(b, d, first);
    FirstIsLocked(b.outbox.drains, d, first);
    var one := Apply(b, Drains(BeginDrain(d, first)));
    BatchMayLock(one, rows, now, limit);
    var second := Picked(rows, LockedBy(one.outbox.drains), now, limit);
    BeginIs(one, e, second);
    SecondPicks(rows, LockedBy(b.outbox.drains), first, now, limit);
  }

  lemma BeginIs(b: Bus, d: nat, picked: seq<RowId>)
    requires d !in b.outbox.drains && CanLock(b.outbox, picked)
    ensures Apply(b, Drains(BeginDrain(d, picked))).outbox
         == Outbox(b.outbox.rows, b.outbox.drains[d := Drain((set r | r in picked), picked, {})])
  {
    hide CanLock;
  }

  lemma SecondPicks(rows: seq<Row>, locked: set<nat>, first: seq<nat>, now: int, limit: nat)
    ensures var next := locked + set r | r in first;
      && (forall r :: r in Picked(rows, next, now, limit) ==> r !in first)
      && (forall i :: 0 <= i < |rows| && IsDue(rows[i], now) && i !in locked && i !in first ==> i in Due(rows, next, now))
  {
    var next := locked + set r | r in first;
    PickedIncreases(rows, next, now, limit);
    DuePositions(rows, next, now, |rows|);
    hide Picked, IsDue;
  }

  lemma FirstIsLocked(drains: map<nat, Drain>, d: nat, first: seq<RowId>)
    requires d !in drains
    ensures LockedBy(drains[d := Drain((set r | r in first), first, {})]) == LockedBy(drains) + set r | r in first
  {
    var more := drains[d := Drain((set r | r in first), first, {})];
    forall r ensures r in LockedBy(more) <==> r in LockedBy(drains) || r in first {
      if r in LockedBy(drains) {
        var e :| e in drains && r in drains[e].locked;
        assert e in more && r in more[e].locked;
      }
      if r in first { assert d in more && r in more[d].locked; }
    }
  }

  lemma CommitsToTheTable(b: Bus, sent: Bus, d: nat, rows: seq<Row>, picked: seq<nat>, outcomes: seq<Outcome>, now: int, cap: int)
    requires InRange(picked, |rows|) && Increasing(picked) && |outcomes| == |picked| && d !in b.outbox.drains
    requires Corresponds(rows, b.outbox.rows) && IsHalfway(b, sent, d, rows, picked, outcomes)
    ensures var after := Apply(sent, Drains(CommitDrain(d)));
      && Corresponds(Drained(rows, picked, outcomes, now, cap), after.outbox.rows)
      && after.outbox.drains == b.outbox.drains
      && after.accepted == b.accepted + multiset(Taken(rows, picked, outcomes))
      && after.made == b.made && after.store == b.store && after.letters == b.letters
  {
    assert picked[|outcomes|..] == [] && picked[..|outcomes|] == picked;
    hide AckedOf, Taken, Drained, Corresponds;
    var locked := set r | r in picked;
    assert sent.outbox == Outbox(b.outbox.rows, b.outbox.drains[d := Drain(locked, [], AckedOf(picked, outcomes))]);
    var after := Apply(sent, Drains(CommitDrain(d)));
    assert after.outbox.rows == CommitMarks(b.outbox.rows, AckedOf(picked, outcomes));
    assert after.outbox.drains == b.outbox.drains;
    hide Apply, CommitMarks;
    MarkedTableCorresponds(rows, b.outbox.rows, picked, outcomes, now, cap);
  }

  lemma MarkedTableCorresponds(rows: seq<Row>, outbox: map<RowId, OutboxRow>, picked: seq<nat>, outcomes: seq<Outcome>,
        now: int, cap: int)
    requires InRange(picked, |rows|) && Increasing(picked) && |outcomes| == |picked| && Corresponds(rows, outbox)
    ensures Corresponds(Drained(rows, picked, outcomes, now, cap), CommitMarks(outbox, AckedOf(picked, outcomes)))
  {
    hide AckedOf, Drained;
    var after, marked := Drained(rows, picked, outcomes, now, cap), CommitMarks(outbox, AckedOf(picked, outcomes));
    forall i | 0 <= i < |rows|
      ensures i in marked && marked[i] == OutboxRow(after[i].envelope, !after[i].pending)
    {
      MarksAreSettlements(rows, picked, outcomes, now, cap, i);
    }
  }
}
