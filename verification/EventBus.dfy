/**
 * Events on their way from a producer to the store: direct publish or outbox, a broker that accepts and
 * redelivers, an idempotent insert, a dead-letter queue and its replays. Every publish can succeed, fail, or be
 * accepted with the answer lost, and every process can stop between any two steps.
 */
module EventBus {
  import opened Options

  type EventId = nat
  type RowId = nat
  type RecordId = nat

  datatype Envelope = Envelope(id: EventId, timestamp: int, payload: nat)

  /** What a publish comes to. An answer means acceptance; acceptance may lose its answer. */
  datatype Outcome = Acked | AcceptedOnly | Rejected

  function Send(accepted: multiset<Envelope>, e: Envelope, outcome: Outcome): multiset<Envelope> {
    if outcome.Rejected? then accepted else accepted + multiset{e}
  }

  // Producers and their outbox.

  datatype Attempt = Trying | NeedsOutbox

  /** Events made, those still being dispatched, and those whose producer stopped in the middle. */
  datatype Made = Made(created: map<EventId, Envelope>, dispatching: map<EventId, Attempt>, stopped: set<EventId>)

  datatype OutboxRow = OutboxRow(envelope: Envelope, published: bool)

  /** An open transaction: the rows it has locked, those still to send, and those it has marked but not committed. */
  datatype Drain = Drain(locked: set<RowId>, left: seq<RowId>, marked: set<RowId>)

  datatype Outbox = Outbox(rows: map<RowId, OutboxRow>, drains: map<nat, Drain>)

  datatype Producing =
    | Create(envelope: Envelope)
    | PublishDirect(id: EventId, outcome: Outcome)
    | CommitToOutbox(id: EventId, row: RowId)
    | ProducerStops(id: EventId)

  /** A step that is not possible in a state changes nothing. */
  function Producer(m: Made, step: Producing): Made {
    match step
    case Create(e) =>
      if e.id in m.created then m
      else m.(created := m.created[e.id := e], dispatching := m.dispatching[e.id := Trying])
    case PublishDirect(id, outcome) =>
      if !Awaits(m, id, Trying) then m
      else m.(dispatching := if outcome.Acked? then m.dispatching - {id} else m.dispatching[id := NeedsOutbox])
    case CommitToOutbox(id, row) =>
      if !Awaits(m, id, NeedsOutbox) then m else m.(dispatching := m.dispatching - {id})
    case ProducerStops(id) =>
      if id in m.dispatching then m.(dispatching := m.dispatching - {id}, stopped := m.stopped + {id}) else m
  }

  predicate Awaits(m: Made, id: EventId, attempt: Attempt) {
    id in m.dispatching && id in m.created && m.dispatching[id] == attempt
  }

  datatype Draining =
    | BeginDrain(drain: nat, picked: seq<RowId>)
    | DrainNext(drain: nat, outcome: Outcome)
    | CommitDrain(drain: nat)
    | DrainStops(drain: nat)

  /** Rows a drain may lock: pending and not locked by another drain, which is skipped rather than waited for. */
  predicate CanLock(o: Outbox, picked: seq<RowId>) {
    forall r :: r in picked ==> r in o.rows && !o.rows[r].published && !IsLocked(o.drains, r)
  }

  predicate IsLocked(drains: map<nat, Drain>, r: RowId) {
    exists d :: d in drains && r in drains[d].locked
  }

  function CommitMarks(rows: map<RowId, OutboxRow>, marked: set<RowId>): map<RowId, OutboxRow> {
    map r | r in rows :: if r in marked then rows[r].(published := true) else rows[r]
  }

  predicate CanSend(o: Outbox, d: nat) {
    d in o.drains && o.drains[d].left != [] && o.drains[d].left[0] in o.rows
  }

  function Drainer(o: Outbox, step: Draining): Outbox {
    match step
    case BeginDrain(d, picked) =>
      if d in o.drains || !CanLock(o, picked) then o
      else o.(drains := o.drains[d := Drain((set r | r in picked), picked, {})])
    case DrainNext(d, outcome) =>
      if !CanSend(o, d) then o
      else
        var row, tx := o.drains[d].left[0], o.drains[d];
        o.(drains := o.drains[d := tx.(left := tx.left[1..], marked := if outcome.Acked? then tx.marked + {row} else tx.marked)])
    case CommitDrain(d) =>
      if d !in o.drains || o.drains[d].left != [] then o
      else Outbox(CommitMarks(o.rows, o.drains[d].marked), o.drains - {d})
    case DrainStops(d) => o.(drains := o.drains - {d})
  }

  // The store.

  /** The columns of the unique index. */
  datatype StoreKey = StoreKey(id: EventId, timestamp: int)

  datatype Store = Store(rows: map<StoreKey, Envelope>, delivered: set<EventId>)

  /** INSERT ... ON CONFLICT (id, timestamp) DO NOTHING. */
  function Insert(rows: map<StoreKey, Envelope>, e: Envelope): map<StoreKey, Envelope> {
    var key := StoreKey(e.id, e.timestamp);
    if key in rows then rows else rows[key := e]
  }

  function Ingested(s: Store, e: Envelope): Store {
    Store(Insert(s.rows, e), s.delivered + {e.id})
  }

  predicate IdsAreUnique(rows: map<StoreKey, Envelope>) {
    forall k, l :: k in rows && l in rows && k.id == l.id ==> k == l
  }

  // Dead letters and their replays.

  /** A dead-lettered message as the store keeps it; without an envelope it cannot be replayed. */
  datatype Record = Record(envelope: Option<Envelope>, replayed: bool)

  /** A replay request between reading its record and marking it. */
  datatype Replay = Replay(record: RecordId, envelope: Envelope, sent: bool)

  /** Per record, the replays that reported success, and those that set the mark and never learned of it. */
  datatype Marks = Marks(wins: multiset<RecordId>, silent: multiset<RecordId>)

  datatype Letters = Letters(
    stream: seq<Option<Envelope>>, records: map<RecordId, Record>, replays: map<nat, Replay>, marks: Marks)

  datatype Replaying =
    | IngestDeadLetter(sequence: nat)
    | ReadRecord(replay: nat, record: RecordId)
    | PublishReplay(replay: nat, outcome: Outcome)
    | MarkReplayed(replay: nat, answered: bool)
    | ReplayStops(replay: nat)

  predicate CanResend(l: Letters, p: nat) {
    p in l.replays && !l.replays[p].sent
  }

  function Told(m: Marks, k: RecordId, answered: bool): Marks {
    if answered then m.(wins := m.wins + multiset{k}) else m.(silent := m.silent + multiset{k})
  }

  /** UPDATE ... WHERE id = $1 AND replayed_at IS NULL RETURNING: one of any number of racing replays gets the row. */
  function Mark(l: Letters, p: nat, k: RecordId, answered: bool): Letters {
    if k in l.records && !l.records[k].replayed
    then Letters(l.stream, l.records[k := l.records[k].(replayed := true)], l.replays - {p}, Told(l.marks, k, answered))
    else l.(replays := l.replays - {p})
  }

  function Replayer(l: Letters, step: Replaying): Letters {
    match step
    case IngestDeadLetter(sequence) =>
      if sequence >= |l.stream| || sequence in l.records then l
      else l.(records := l.records[sequence := Record(l.stream[sequence], false)])
    case ReadRecord(p, k) =>
      if p in l.replays || k !in l.records || l.records[k].replayed || l.records[k].envelope.None? then l
      else l.(replays := l.replays[p := Replay(k, l.records[k].envelope.value, false)])
    case PublishReplay(p, outcome) =>
      if !CanResend(l, p) then l
      else l.(replays := if outcome.Acked? then l.replays[p := l.replays[p].(sent := true)] else l.replays - {p})
    case MarkReplayed(p, answered) =>
      if p !in l.replays || !l.replays[p].sent then l else Mark(l, p, l.replays[p].record, answered)
    case ReplayStops(p) => l.(replays := l.replays - {p})
  }

  // All of it together.

  datatype Bus = Bus(made: Made, outbox: Outbox, accepted: multiset<Envelope>, store: Store, letters: Letters)

  const START := Bus(Made(map[], map[], {}), Outbox(map[], map[]), multiset{}, Store(map[], {}), Letters([], map[], map[], Marks(multiset{}, multiset{})))

  datatype Step =
    | Produce(p: Producing)
    | Drains(d: Draining)
    | Ingest(envelope: Envelope)
    | PublishDeadLetter(envelope: Envelope, withEnvelope: bool)
    | Replays(r: Replaying)

  /** What a step makes the broker accept. */
  function Published(b: Bus, step: Step): multiset<Envelope> {
    match step
    case Produce(PublishDirect(id, outcome)) =>
      if Awaits(b.made, id, Trying) then Send(b.accepted, b.made.created[id], outcome) else b.accepted
    case Drains(DrainNext(d, outcome)) =>
      if CanSend(b.outbox, d) then Send(b.accepted, b.outbox.rows[b.outbox.drains[d].left[0]].envelope, outcome) else b.accepted
    case Replays(PublishReplay(p, outcome)) =>
      if CanResend(b.letters, p) then Send(b.accepted, b.letters.replays[p].envelope, outcome) else b.accepted
    case _ => b.accepted
  }

  function Apply(b: Bus, step: Step): Bus {
    match step
    case Produce(p) =>
      if p.CommitToOutbox? && p.row in b.outbox.rows then b
      else
        var rows :=
          if p.CommitToOutbox? && Awaits(b.made, p.id, NeedsOutbox)
          then b.outbox.rows[p.row := OutboxRow(b.made.created[p.id], false)] else b.outbox.rows;
        Bus(Producer(b.made, p), b.outbox.(rows := rows), Published(b, step), b.store, b.letters)
    case Drains(d) => Bus(b.made, Drainer(b.outbox, d), Published(b, step), b.store, b.letters)
    case Ingest(e) => if e in b.accepted then b.(store := Ingested(b.store, e)) else b
    case PublishDeadLetter(e, withEnvelope) =>
      if e in b.accepted
      then b.(letters := b.letters.(stream := b.letters.stream + [if withEnvelope then Some(e) else None])) else b
    case Replays(r) => Bus(b.made, b.outbox, Published(b, step), b.store, Replayer(b.letters, r))
  }

  function Run(steps: seq<Step>): Bus {
    if steps == [] then START else Apply(Run(steps[..|steps| - 1]), steps[|steps| - 1])
  }

  // Every copy of an event is the event its producer created.

  predicate Genuine(created: map<EventId, Envelope>, e: Envelope) {
    e.id in created && created[e.id] == e
  }

  predicate MadeIsGenuine(m: Made) {
    (forall id :: id in m.created ==> m.created[id].id == id) && m.dispatching.Keys <= m.created.Keys
  }

  predicate RowsAreGenuine(created: map<EventId, Envelope>, rows: map<RowId, OutboxRow>) {
    forall r :: r in rows ==> Genuine(created, rows[r].envelope)
  }

  ghost predicate LogIsGenuine(created: map<EventId, Envelope>, accepted: multiset<Envelope>) {
    forall e :: e in accepted ==> Genuine(created, e)
  }

  predicate StoreIsGenuine(created: map<EventId, Envelope>, rows: map<StoreKey, Envelope>) {
    forall k :: k in rows ==> Genuine(created, rows[k])
  }

  predicate LettersAreGenuine(created: map<EventId, Envelope>, l: Letters) {
    && (forall i :: 0 <= i < |l.stream| && l.stream[i].Some? ==> Genuine(created, l.stream[i].value))
    && (forall k :: k in l.records && l.records[k].envelope.Some? ==> Genuine(created, l.records[k].envelope.value))
    && (forall p :: p in l.replays ==> Genuine(created, l.replays[p].envelope))
  }

  ghost predicate AllGenuine(b: Bus) {
    var created := b.made.created;
    && MadeIsGenuine(b.made) && RowsAreGenuine(created, b.outbox.rows) && LogIsGenuine(created, b.accepted)
    && StoreIsGenuine(created, b.store.rows) && LettersAreGenuine(created, b.letters)
  }

  lemma ProducerKeepsGenuine(m: Made, p: Producing)
    requires MadeIsGenuine(m)
    ensures MadeIsGenuine(Producer(m, p))
    ensures forall e :: Genuine(m.created, e) ==> Genuine(Producer(m, p).created, e)
  {
  }

  lemma ReplayerKeepsGenuine(created: map<EventId, Envelope>, l: Letters, r: Replaying)
    requires LettersAreGenuine(created, l)
    ensures LettersAreGenuine(created, Replayer(l, r))
  {
    hide Genuine;
  }

  lemma PublishedIsGenuine(b: Bus, step: Step)
    requires AllGenuine(b)
    ensures LogIsGenuine(b.made.created, Published(b, step))
  {
  }

  lemma DrainerKeepsEnvelopes(o: Outbox, d: Draining)
    ensures var rows := Drainer(o, d).rows;
      rows.Keys == o.rows.Keys
      && forall r :: r in o.rows ==> rows[r].envelope == o.rows[r].envelope && (o.rows[r].published ==> rows[r].published)
  {
    hide CanLock;
  }

  lemma StepKeepsGenuine(b: Bus, step: Step)
    requires AllGenuine(b)
    ensures AllGenuine(Apply(b, step))
  {
    hide Producer, Drainer, Replayer, Published;
    PublishedIsGenuine(b, step);
    match step
    case Produce(p) => ProducerKeepsGenuine(b.made, p);
    case Drains(d) => DrainerKeepsEnvelopes(b.outbox, d);
    case Ingest(e) =>
    case PublishDeadLetter(e, withEnvelope) =>
    case Replays(r) => ReplayerKeepsGenuine(b.made.created, b.letters, r);
  }

  // A committed row is sent before it stops being pending.

  /** The broker forgets nothing. */
  lemma BrokerKeeps(b: Bus, step: Step)
    ensures b.accepted <= Apply(b, step).accepted
  {
    hide Producer, Drainer, Replayer, Ingested;
  }

  /** Rows stay, with their envelopes, and a published row stays published. */
  lemma OutboxKeeps(b: Bus, step: Step, r: RowId)
    requires r in b.outbox.rows
    ensures var rows := Apply(b, step).outbox.rows;
      r in rows && rows[r].envelope == b.outbox.rows[r].envelope && (b.outbox.rows[r].published ==> rows[r].published)
  {
    hide Producer, Drainer, Replayer, Ingested, Published;
    if step.Drains? { DrainerKeepsEnvelopes(b.outbox, step.d); }
  }

  predicate RowsAreSent(o: Outbox, accepted: multiset<Envelope>) {
    && (forall r :: r in o.rows && o.rows[r].published ==> o.rows[r].envelope in accepted)
    && (forall d, r :: d in o.drains && r in o.drains[d].marked ==> r in o.rows && o.rows[r].envelope in accepted)
  }

  lemma DrainKeepsRowsSent(b: Bus, d: Draining)
    requires RowsAreSent(b.outbox, b.accepted)
    ensures RowsAreSent(Drainer(b.outbox, d), Published(b, Drains(d)))
  {
    hide CanLock;
    var accepted := Published(b, Drains(d));
    assert b.accepted <= accepted;
    match d
    case BeginDrain(x, picked) =>
    case DrainNext(x, outcome) =>
    case CommitDrain(x) =>
    case DrainStops(x) =>
  }

  lemma StepKeepsRowsSent(b: Bus, step: Step)
    requires RowsAreSent(b.outbox, b.accepted)
    ensures RowsAreSent(Apply(b, step).outbox, Apply(b, step).accepted)
  {
    BrokerKeeps(b, step);
    match step
    case Produce(p) => hide Producer, Published;
    case Drains(d) =>
      DrainKeepsRowsSent(b, d);
      hide RowsAreSent, Drainer, Published;
    case Ingest(e) =>
    case PublishDeadLetter(e, withEnvelope) =>
    case Replays(r) => hide Replayer, Published;
  }

  predicate LocksAreExclusive(o: Outbox) {
    && (forall d, e, r :: d in o.drains && e in o.drains && r in o.drains[d].locked && r in o.drains[e].locked ==> d == e)
    && (forall d, r :: d in o.drains && r in o.drains[d].locked ==> r in o.rows && !o.rows[r].published)
    && (forall d :: d in o.drains ==> o.drains[d].marked <= o.drains[d].locked)
    && (forall d, r :: d in o.drains && r in o.drains[d].left ==> r in o.drains[d].locked)
  }

  lemma DrainerKeepsLocks(o: Outbox, d: Draining)
    requires LocksAreExclusive(o)
    ensures LocksAreExclusive(Drainer(o, d))
  {
    match d
    case BeginDrain(x, picked) =>
      if x !in o.drains && CanLock(o, picked) {
        assert forall e, r :: e in o.drains && r in o.drains[e].locked ==> IsLocked(o.drains, r);
      }
    case DrainNext(x, outcome) => hide CanLock;
    case CommitDrain(x) => hide CanLock;
    case DrainStops(x) => hide CanLock;
  }

  lemma StepKeepsLocks(b: Bus, step: Step)
    requires LocksAreExclusive(b.outbox)
    ensures LocksAreExclusive(Apply(b, step).outbox)
  {
    hide Producer, Published, Replayer, Ingested;
    if step.Drains? {
      DrainerKeepsLocks(b.outbox, step.d);
      hide LocksAreExclusive, Drainer;
    }
  }

  // The store holds the delivered events.

  ghost predicate IsDelivered(s: Store) {
    && (forall k :: k in s.rows ==> k == StoreKey(s.rows[k].id, s.rows[k].timestamp) && k.id in s.delivered)
    && (forall id :: id in s.delivered ==> HasId(s.rows, id))
  }

  ghost predicate HasId(rows: map<StoreKey, Envelope>, id: EventId) {
    exists k :: k in rows && k.id == id
  }

  lemma IngestKeepsDelivered(s: Store, e: Envelope)
    requires IsDelivered(s)
    ensures IsDelivered(Ingested(s, e))
  {
    var after := Ingested(s, e);
    assert StoreKey(e.id, e.timestamp) in after.rows;
    forall id | id in after.delivered
      ensures HasId(after.rows, id)
    {
      if id != e.id {
        var k :| k in s.rows && k.id == id;
        assert k in after.rows;
      }
    }
  }

  // A record is replayed successfully at most once.

  ghost predicate WinsAreMarked(l: Letters) {
    forall k: RecordId :: l.marks.wins[k] + l.marks.silent[k] == WinsOf(l, k)
  }

  function WinsOf(l: Letters, k: RecordId): nat {
    if k in l.records && l.records[k].replayed then 1 else 0
  }

  lemma ReplayerKeepsWins(l: Letters, r: Replaying)
    requires WinsAreMarked(l)
    ensures WinsAreMarked(Replayer(l, r))
  {
    var after := Replayer(l, r);
    forall k: RecordId
      ensures after.marks.wins[k] + after.marks.silent[k] == WinsOf(after, k)
    {
      assert l.marks.wins[k] + l.marks.silent[k] == WinsOf(l, k);
    }
  }

  // Nothing is forgotten while its producer lives.

  ghost predicate Waits(rows: map<RowId, OutboxRow>, e: Envelope) {
    exists r :: r in rows && rows[r].envelope == e
  }

  ghost predicate Held(b: Bus, id: EventId) {
    id in b.made.created ==>
      id in b.made.dispatching || id in b.made.stopped || b.made.created[id] in b.accepted || Waits(b.outbox.rows, b.made.created[id])
  }

  ghost predicate AllHeld(b: Bus) {
    forall id :: id in b.made.created ==> Held(b, id)
  }

  lemma WaitsOn(b: Bus, step: Step, e: Envelope)
    requires Waits(b.outbox.rows, e)
    ensures Waits(Apply(b, step).outbox.rows, e)
  {
    hide Apply;
    var r :| r in b.outbox.rows && b.outbox.rows[r].envelope == e;
    OutboxKeeps(b, step, r);
  }

  lemma StepKeepsHeld(b: Bus, step: Step, id: EventId)
    requires Held(b, id)
    ensures Held(Apply(b, step), id)
  {
    hide Drainer, Replayer, Ingested;
    var after := Apply(b, step);
    BrokerKeeps(b, step);
    if id in b.made.created {
      if Waits(b.outbox.rows, b.made.created[id]) { WaitsOn(b, step, b.made.created[id]); }
      if step.Produce? && step.p.CommitToOutbox? && step.p.id == id && after != b {
        if Awaits(b.made, id, NeedsOutbox) { assert after.outbox.rows[step.p.row].envelope == b.made.created[id]; }
      }
    }
  }

  ghost predicate Inv(b: Bus) {
    && AllGenuine(b) && RowsAreSent(b.outbox, b.accepted) && LocksAreExclusive(b.outbox)
    && IsDelivered(b.store) && WinsAreMarked(b.letters) && AllHeld(b)
  }

  lemma StepKeepsInv(b: Bus, step: Step)
    requires Inv(b)
    ensures Inv(Apply(b, step))
  {
    StepKeepsGenuine(b, step);
    StepKeepsRowsSent(b, step);
    StepKeepsLocks(b, step);
    forall id | id in Apply(b, step).made.created
      ensures Held(Apply(b, step), id)
    {
      StepKeepsHeld(b, step, id);
    }
    hide AllGenuine, RowsAreSent, LocksAreExclusive, Held, Published, Producer, Drainer, IsDelivered, WinsAreMarked;
    if step.Ingest? { IngestKeepsDelivered(b.store, step.envelope); }
    if step.Replays? { ReplayerKeepsWins(b.letters, step.r); }
    if step.PublishDeadLetter? { WinsIgnoreStream(b.letters, Apply(b, step).letters); }
    hide Replayer, Ingested;
  }

  lemma WinsIgnoreStream(l: Letters, m: Letters)
    requires m == l.(stream := m.stream)
    ensures WinsAreMarked(l) ==> WinsAreMarked(m)
  {
    if WinsAreMarked(l) {
      forall k: RecordId ensures m.marks.wins[k] + m.marks.silent[k] == WinsOf(m, k) {
        assert l.marks.wins[k] + l.marks.silent[k] == WinsOf(l, k);
      }
    }
  }

  lemma {:induction false} RunKeepsInv(steps: seq<Step>)
    ensures Inv(Run(steps))
  {
    hide Apply;
    if steps != [] {
      RunKeepsInv(steps[..|steps| - 1]);
      hide Inv;
      StepKeepsInv(Run(steps[..|steps| - 1]), steps[|steps| - 1]);
    }
  }

  lemma {:induction false} RowStays(steps: seq<Step>, more: seq<Step>, row: RowId)
    requires row in Run(steps).outbox.rows
    ensures var later := Run(steps + more).outbox.rows;
      row in later && later[row].envelope == Run(steps).outbox.rows[row].envelope
      && (Run(steps).outbox.rows[row].published ==> later[row].published)
  {
    hide Apply;
    if more == [] {
      assert steps + more == steps;
    } else {
      var last := |more| - 1;
      RowStays(steps, more[..last], row);
      assert (steps + more)[..|steps| + last] == steps + more[..last];
      OutboxKeeps(Run(steps + more[..last]), more[last], row);
    }
  }

  // The results.

  /**
   * A row once committed stays, with its envelope, and at any later time it is still pending or the broker has
   * accepted that envelope: a stop between a publish and its commit repeats the publish and never skips one.
   */
  lemma CommittedRowIsPendingOrAccepted(steps: seq<Step>, more: seq<Step>, row: RowId)
    requires row in Run(steps).outbox.rows
    ensures row in Run(steps + more).outbox.rows
    ensures var e := Run(steps).outbox.rows[row].envelope;
      var later := Run(steps + more);
      later.outbox.rows[row] == OutboxRow(e, false) || (later.outbox.rows[row] == OutboxRow(e, true) && e in later.accepted)
  {
    hide Apply, AllGenuine, AllHeld;
    RowStays(steps, more, row);
    RunKeepsInv(steps + more);
  }

  /** An event whose producer has not stopped is being dispatched, waits in the outbox, or has been accepted. */
  lemma NothingIsForgotten(steps: seq<Step>, id: EventId)
    requires var m := Run(steps).made; id in m.created && id !in m.dispatching && id !in m.stopped
    ensures var b := Run(steps); var e := b.made.created[id];
      e in b.accepted || exists r :: r in b.outbox.rows && b.outbox.rows[r] == OutboxRow(e, false)
  {
    hide Run;
    RunKeepsInv(steps);
    var b := Run(steps);
    var e := b.made.created[id];
    assert Held(b, id);
    if e !in b.accepted {
      var r :| r in b.outbox.rows && b.outbox.rows[r].envelope == e;
      assert b.outbox.rows[r] == OutboxRow(e, false);
    }
  }

  /** At-least-once everywhere, once in the store: its ids are exactly the delivered ids, each in one row. */
  lemma StoreHoldsEachDeliveredEventOnce(steps: seq<Step>)
    ensures var b := Run(steps);
      && IdsAreUnique(b.store.rows)
      && (forall id :: id in b.store.delivered <==> HasId(b.store.rows, id))
      && (forall k :: k in b.store.rows ==> Genuine(b.made.created, b.store.rows[k]))
  {
    hide Run;
    RunKeepsInv(steps);
    var b := Run(steps);
    forall k, l | k in b.store.rows && l in b.store.rows && k.id == l.id
      ensures k == l
    {
      assert Genuine(b.made.created, b.store.rows[k]) && Genuine(b.made.created, b.store.rows[l]);
    }
  }

  /**
   * Of any number of replays of one record, racing or not, at most one sets its mark, and it reports success unless the
   * answer to its mark is lost.
   */
  lemma {:induction false} ReplaySucceedsAtMostOnce(steps: seq<Step>, k: RecordId)
    ensures var l := Run(steps).letters;
      && l.marks.wins[k] + l.marks.silent[k] <= 1
      && (l.marks.wins[k] + l.marks.silent[k] == 1 <==> k in l.records && l.records[k].replayed)
  {
    hide Run;
    RunKeepsInv(steps);
    var l := Run(steps).letters;
    assert l.marks.wins[k] + l.marks.silent[k] == WinsOf(l, k);
  }

  /** Two drains never hold the same row, and a held row is not published. */
  lemma DrainsNeverShareARow(steps: seq<Step>, d: nat, e: nat, row: RowId)
    requires var drains := Run(steps).outbox.drains;
      d in drains && e in drains && row in drains[d].locked && row in drains[e].locked
    ensures d == e && row in Run(steps).outbox.rows && !Run(steps).outbox.rows[row].published
  {
    hide Run;
    RunKeepsInv(steps);
  }

  // Producers.

  predicate MadeIsInOrder(m: Made) {
    && m.dispatching.Keys <= m.created.Keys && m.stopped <= m.created.Keys
    && (forall id :: id in m.dispatching ==> id !in m.stopped)
  }

  /** Over every run, whoever is dispatching or has stopped has created the event, and nobody does both. */
  lemma {:induction false} ProducersAreInOrder(steps: seq<Step>)
    ensures MadeIsInOrder(Run(steps).made)
  {
    hide Drainer, Replayer, Published;
    if steps != [] {
      ProducersAreInOrder(steps[..|steps| - 1]);
      assert Run(steps) == Apply(Run(steps[..|steps| - 1]), steps[|steps| - 1]);
    }
  }

  /** Some direct publish of the event was not answered. */
  predicate FailedToPublish(steps: seq<Step>, id: EventId) {
    exists i :: 0 <= i < |steps| && WasNotAnswered(steps[i], id)
  }

  predicate WasNotAnswered(step: Step, id: EventId) {
    step.Produce? && step.p.PublishDirect? && step.p.id == id && !step.p.outcome.Acked?
  }

  lemma FailureStays(steps: seq<Step>, id: EventId)
    requires steps != []
    ensures FailedToPublish(steps, id) <==>
      FailedToPublish(steps[..|steps| - 1], id) || WasNotAnswered(steps[|steps| - 1], id)
  {
    var init := steps[..|steps| - 1];
    if FailedToPublish(init, id) {
      var i :| 0 <= i < |init| && WasNotAnswered(init[i], id);
      assert WasNotAnswered(steps[i], id);
    }
    if FailedToPublish(steps, id) {
      var i :| 0 <= i < |steps| && WasNotAnswered(steps[i], id);
      assert i == |steps| - 1 || WasNotAnswered(init[i], id);
    }
  }

  /** The events of the outbox, and those on their way to it, have a direct publish behind them that failed. */
  ghost predicate OutboxHasReasons(b: Bus, steps: seq<Step>) {
    && (forall id :: id in b.made.dispatching && b.made.dispatching[id].NeedsOutbox? ==> FailedToPublish(steps, id))
    && (forall r :: r in b.outbox.rows ==> FailedToPublish(steps, b.outbox.rows[r].envelope.id))
    && (forall id :: id in b.made.created ==> b.made.created[id].id == id)
  }

  /** An event goes to the outbox only after a direct publish of it that was not answered. */
  lemma {:induction false} OutboxIsForFailedPublishes(steps: seq<Step>)
    ensures OutboxHasReasons(Run(steps), steps)
  {
    hide FailedToPublish, Replayer, Published, Drainer;
    if steps != [] {
      var init, step := steps[..|steps| - 1], steps[|steps| - 1];
      OutboxIsForFailedPublishes(init);
      forall id ensures FailedToPublish(steps, id) <==> FailedToPublish(init, id) || WasNotAnswered(step, id) {
        FailureStays(steps, id);
      }
      if step.Drains? { DrainerKeepsEnvelopes(Run(init).outbox, step.d); }
    }
  }

  /** Whoever has the answer is done: after it, neither a second publish nor a row changes anything. */
  lemma AnsweredEventIsDone(b: Bus, id: EventId, outcome: Outcome, row: RowId)
    requires id in b.made.created && id in b.made.dispatching && b.made.dispatching[id].Trying?
    ensures var after := Apply(b, Produce(PublishDirect(id, Acked)));
      && after.accepted == b.accepted + multiset{b.made.created[id]} && id !in after.made.dispatching
      && Apply(after, Produce(PublishDirect(id, outcome))) == after
      && Apply(after, Produce(CommitToOutbox(id, row))) == after
    ensures Apply(b, Produce(CommitToOutbox(id, row))) == b
  {
  }

  /** An unanswered publish leads to the outbox, with a pending row of its envelope, whether the broker took it or not. */
  lemma UnansweredEventGoesToTheOutbox(b: Bus, id: EventId, outcome: Outcome, again: Outcome, row: RowId)
    requires id in b.made.created && id in b.made.dispatching && b.made.dispatching[id].Trying?
    requires !outcome.Acked? && row !in b.outbox.rows
    ensures var after := Apply(b, Produce(PublishDirect(id, outcome)));
      && after.accepted == b.accepted + (if outcome.AcceptedOnly? then multiset{b.made.created[id]} else multiset{})
      && Apply(after, Produce(PublishDirect(id, again))) == after
      && var done := Apply(after, Produce(CommitToOutbox(id, row)));
         && row in done.outbox.rows && done.outbox.rows[row] == OutboxRow(b.made.created[id], false)
         && id !in done.made.dispatching && done.accepted == after.accepted
  {
  }

  // Drains and replays.

  /** A drain that stops gives its rows back unpublished; one with rows left cannot commit. */
  lemma StoppedDrainReleasesItsRows(b: Bus, d: nat)
    requires d in b.outbox.drains
    ensures var after := Apply(b, Drains(DrainStops(d)));
      && after.outbox.rows == b.outbox.rows && d !in after.outbox.drains
      && forall e :: e in b.outbox.drains && e != d ==> e in after.outbox.drains && after.outbox.drains[e] == b.outbox.drains[e]
    ensures b.outbox.drains[d].left != [] ==> Apply(b, Drains(CommitDrain(d))) == b
  {
  }

  /** A committed drain publishes exactly the rows whose sends were answered. */
  lemma CommitPublishesTheMarked(b: Bus, d: nat, r: RowId)
    requires d in b.outbox.drains && b.outbox.drains[d].left == [] && r in b.outbox.rows
    ensures var rows := Apply(b, Drains(CommitDrain(d))).outbox.rows;
      r in rows && rows[r] == OutboxRow(b.outbox.rows[r].envelope, b.outbox.rows[r].published || r in b.outbox.drains[d].marked)
  {
  }

  /** A dead letter is kept with its envelope when it was published with one, once. */
  lemma DeadLetterIsKept(b: Bus, e: Envelope, withEnvelope: bool)
    requires e in b.accepted && |b.letters.stream| !in b.letters.records
    ensures var after := Apply(Apply(b, PublishDeadLetter(e, withEnvelope)), Replays(IngestDeadLetter(|b.letters.stream|)));
      && |b.letters.stream| in after.letters.records
      && after.letters.records[|b.letters.stream|] == Record(if withEnvelope then Some(e) else None, false)
      && Apply(after, Replays(IngestDeadLetter(|b.letters.stream|))) == after
  {
  }

  /** A replay publishes once and marks only after an answered publish. */
  lemma ReplayPublishesOnce(b: Bus, p: nat, outcome: Outcome, answered: bool)
    requires p in b.letters.replays
    ensures b.letters.replays[p].sent ==> Apply(b, Replays(PublishReplay(p, outcome))) == b
    ensures !b.letters.replays[p].sent ==> Apply(b, Replays(MarkReplayed(p, answered))) == b
    ensures var after := Apply(b, Replays(PublishReplay(p, outcome)));
      !b.letters.replays[p].sent ==>
        && after.accepted
           == b.accepted + (if outcome.Rejected? then multiset{} else multiset{b.letters.replays[p].envelope})
        && (p in after.letters.replays <==> outcome.Acked?)
  {
  }

  /** A replay is begun only of a record that has an envelope and no mark, and carries that envelope. */
  lemma ReplayIsBegunIff(b: Bus, p: nat, k: RecordId)
    requires p !in b.letters.replays
    ensures var after := Apply(b, Replays(ReadRecord(p, k)));
      && (p in after.letters.replays <==>
            k in b.letters.records && !b.letters.records[k].replayed && b.letters.records[k].envelope.Some?)
      && (p in after.letters.replays ==> after.letters.replays[p] == Replay(k, b.letters.records[k].envelope.value, false))
  {
  }

  // What the index on (id, timestamp) rests on.

  /** An insert keeps ids unique exactly when no stored row has that id with another timestamp. */
  lemma InsertKeepsIdsUniqueIff(rows: map<StoreKey, Envelope>, e: Envelope)
    requires IdsAreUnique(rows)
    ensures IdsAreUnique(Insert(rows, e)) <==> forall k :: k in rows && k.id == e.id ==> k.timestamp == e.timestamp
  {
    assert StoreKey(e.id, e.timestamp) in Insert(rows, e);
    assert forall k :: k in rows ==> k in Insert(rows, e);
  }

  /** A republish with a new timestamp would be stored a second time. */
  lemma RestampedEventIsStoredTwice()
    ensures var rows := Insert(Insert(map[], Envelope(1, 5, 0)), Envelope(1, 6, 0));
      !IdsAreUnique(rows) && |rows| == 2
  {
    var rows := Insert(Insert(map[], Envelope(1, 5, 0)), Envelope(1, 6, 0));
    assert StoreKey(1, 5) in rows && StoreKey(1, 6) in rows;
    assert rows.Keys == {StoreKey(1, 5), StoreKey(1, 6)};
  }
}
