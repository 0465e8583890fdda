/**
 * The store's own tables as one request sees them: the idempotent insert, and a replay that publishes first and
 * marks afterwards while other requests go on.
 */
module DlqReplay {
  import opened EventBus
  import opened Options

  datatype ReplayResult = Replayed | NotFound | NoEnvelope | InvalidEnvelope | AlreadyReplayed | PublishFailed | MarkFailed

  /** What a statement comes to. */
  datatype Fate = Answered | Unanswered | NotDone

  /** What other requests may do to the records meanwhile: add some, and mark some. */
  predicate GoesOn(before: map<RecordId, Record>, after: map<RecordId, Record>) {
    forall k :: k in before ==>
      k in after && after[k].envelope == before[k].envelope && (before[k].replayed ==> after[k].replayed)
  }

  /** The record has an envelope and was not replayed yet. */
  predicate IsReplayable(records: map<RecordId, Record>, k: RecordId) {
    k in records && records[k].envelope.Some? && !records[k].replayed
  }

  class StoreTables {
    var events: map<StoreKey, Envelope>
    var records: map<RecordId, Record>
    /** Everything this request has published. */
    var sent: seq<Envelope>
    /** Publishes and marks that were not answered. */
    ghost var unanswered: nat

    constructor (events: map<StoreKey, Envelope>, records: map<RecordId, Record>)
      ensures this.events == events && this.records == records && sent == [] && unanswered == 0
    {
      this.events, this.records, this.sent, this.unanswered := events, records, [], 0;
    }

    method Publish(e: Envelope) returns (outcome: Outcome)
      modifies this`sent, this`unanswered
      ensures sent == old(sent) + if outcome.Rejected? then [] else [e]
      ensures unanswered == old(unanswered) + if outcome.Acked? then 0 else 1
    {
      outcome := *;
      if !outcome.Rejected? { sent := sent + [e]; }
      if !outcome.Acked? { unanswered := unanswered + 1; }
    }

    /** A second delivery of an event finds its row and leaves it. */
    method IngestEvent(e: Envelope)
      modifies this`events
      ensures events == Insert(old(events), e)
      ensures StoreKey(e.id, e.timestamp) in old(events) ==> events == old(events)
    {
      var key := StoreKey(e.id, e.timestamp);
      if key !in events { events := events[key := e]; }
    }

    /** Other requests run while this one waits for the broker or the database. */
    method Meanwhile()
      modifies this`records
      ensures GoesOn(old(records), records)
    {
      var after: map<RecordId, Record> := *;
      if GoesOn(records, after) { records := after; }
    }

    /**
     * One statement: sets the mark and says whether it was this request that set it. It can fail before or after it
     * took effect.
     */
    method MarkDlqReplayed(k: RecordId) returns (fate: Fate, marked: bool)
      modifies this`records, this`unanswered
      ensures records == if fate.NotDone? then old(records) else Marked(old(records), k)
      ensures unanswered == old(unanswered) + if fate.Answered? then 0 else 1
      ensures fate.Answered? ==> (marked <==> IsUnmarked(old(records), k))
    {
      marked := false;
      fate := *;
      if !fate.Answered? { unanswered := unanswered + 1; }
      if fate.NotDone? { return; }
      if k in records && !records[k].replayed {
        records := records[k := records[k].(replayed := true)];
        marked := true;
      }
    }

    /**
     * Publishes the stored envelope as it is if it still parses, then marks the record. Success means the record is
     * marked and was sent once by this request; a conflict can come before the publish or after it, when another
     * replay marked first. `outcome` is what the publish came to and `fate` what the mark did; `during` and `later` are
     * the records as others had left them when each was made.
     */
    method ReplayDlqRecord(k: RecordId, parses: Envelope -> bool)
      returns (result: ReplayResult, ghost outcome: Outcome, ghost fate: Fate, ghost during: map<RecordId, Record>,
               ghost later: map<RecordId, Record>)
      modifies this`records, this`sent, this`unanswered
      ensures unanswered >= old(unanswered)
      ensures unanswered != old(unanswered) <==> result.PublishFailed? || result.MarkFailed?
      ensures GoesOn(old(records), during) && GoesOn(during, later)
      ensures result == Answer(old(records), k, parses, outcome, fate, later)
      ensures records == RecordsAfter(old(records), k, parses, outcome, fate, during, later)
      ensures sent == old(sent) + SentFor(old(records), k, parses, outcome)
      ensures GoesOn(old(records), records)
      ensures result.NotFound? <==> k !in old(records)
      ensures result.NoEnvelope? <==> k in old(records) && old(records)[k].envelope.None?
      ensures result.InvalidEnvelope? <==> IsReplayable(old(records), k) && !parses(old(records)[k].envelope.value)
      ensures result.Replayed? || result.AlreadyReplayed? ==> k in records && records[k].replayed
      ensures result.Replayed? ==> !old(records)[k].replayed && sent == old(sent) + [old(records)[k].envelope.value]
      ensures k in old(records) && old(records)[k].envelope.Some? && old(records)[k].replayed ==>
        result.AlreadyReplayed? && sent == old(sent)
      ensures result.AlreadyReplayed? && !old(records)[k].replayed ==> sent == old(sent) + [old(records)[k].envelope.value]
      ensures result.NotFound? || result.NoEnvelope? || result.InvalidEnvelope? ==> records == old(records) && sent == old(sent)
    {
      outcome, fate, during, later := Rejected, NotDone, records, records;
      if k !in records { return NotFound, outcome, fate, during, later; }
      var row := records[k];
      if row.envelope.None? { return NoEnvelope, outcome, fate, during, later; }
      if row.replayed { return AlreadyReplayed, outcome, fate, during, later; }
      if !parses(row.envelope.value) { return InvalidEnvelope, outcome, fate, during, later; }
      Meanwhile();
      during, later := records, records;
      var answer := Publish(row.envelope.value);
      outcome := answer;
      if !answer.Acked? { return PublishFailed, outcome, fate, during, later; }
      Meanwhile();
      later := records;
      var did, marked := MarkDlqReplayed(k);
      fate := did;
      if !did.Answered? { return MarkFailed, outcome, fate, during, later; }
      result := if marked then Replayed else AlreadyReplayed;
    }
  }

  // What a replay comes to.

  predicate MayPublish(records: map<RecordId, Record>, k: RecordId, parses: Envelope -> bool) {
    IsReplayable(records, k) && parses(records[k].envelope.value)
  }

  /** `later` are the records when the mark is set. */
  function Answer(records: map<RecordId, Record>, k: RecordId, parses: Envelope -> bool, outcome: Outcome, fate: Fate,
                  later: map<RecordId, Record>): ReplayResult {
    if k !in records then NotFound
    else if records[k].envelope.None? then NoEnvelope
    else if records[k].replayed then AlreadyReplayed
    else if !parses(records[k].envelope.value) then InvalidEnvelope
    else if !outcome.Acked? then PublishFailed
    else if !fate.Answered? then MarkFailed
    else if IsUnmarked(later, k) then Replayed
    else AlreadyReplayed
  }

  predicate IsUnmarked(records: map<RecordId, Record>, k: RecordId) {
    k in records && !records[k].replayed
  }

  function Marked(records: map<RecordId, Record>, k: RecordId): map<RecordId, Record> {
    if IsUnmarked(records, k) then records[k := records[k].(replayed := true)] else records
  }

  function RecordsAfter(records: map<RecordId, Record>, k: RecordId, parses: Envelope -> bool, outcome: Outcome, fate: Fate,
                        during: map<RecordId, Record>, later: map<RecordId, Record>): map<RecordId, Record> {
    if !MayPublish(records, k, parses) then records
    else if !outcome.Acked? then during
    else if fate.NotDone? then later
    else Marked(later, k)
  }

  function SentFor(records: map<RecordId, Record>, k: RecordId, parses: Envelope -> bool, outcome: Outcome): seq<Envelope> {
    if MayPublish(records, k, parses) && !outcome.Rejected? then [records[k].envelope.value] else []
  }
}
