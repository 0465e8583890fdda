/**
 * One replay request is a run of the bus: it reads its record, publishes and marks, and other processes do what they
 * like in between.
 */
module ReplayRefinement {
  import opened DlqReplay
  import opened EventBus
  import opened Options

  function RunFrom(b: Bus, steps: seq<Step>): Bus {
    if steps == [] then b else Apply(RunFrom(b, steps[..|steps| - 1]), steps[|steps| - 1])
  }

  /** The step is not one of this replay's own. */
  predicate Spares(step: Step, p: nat) {
    step.Replays? && !step.r.IngestDeadLetter? ==> step.r.replay != p
  }

  ghost predicate AllSpare(steps: seq<Step>, p: nat) {
    forall i :: 0 <= i < |steps| ==> Spares(steps[i], p)
  }

  predicate SameReplay(b: Bus, c: Bus, p: nat) {
    if p in b.letters.replays then p in c.letters.replays && c.letters.replays[p] == b.letters.replays[p]
    else p !in c.letters.replays
  }

  /** What anyone may do to the records is what the request allows for, and nobody else moves its replay. */
  lemma OthersGoOn(b: Bus, step: Step, p: nat)
    ensures GoesOn(b.letters.records, Apply(b, step).letters.records)
    ensures Spares(step, p) ==> SameReplay(b, Apply(b, step), p)
  {
    hide Producer, Drainer, Ingested, Published;
  }

  lemma {:induction false} OthersRun(b: Bus, steps: seq<Step>, p: nat)
    requires AllSpare(steps, p)
    ensures GoesOn(b.letters.records, RunFrom(b, steps).letters.records) && SameReplay(b, RunFrom(b, steps), p)
  {
    hide Apply;
    if steps != [] {
      OthersRun(b, steps[..|steps| - 1], p);
      OthersGoOn(RunFrom(b, steps[..|steps| - 1]), steps[|steps| - 1], p);
    }
  }

  /** The bus when the record has been read, and others have gone on. */
  function BeforePublish(b: Bus, p: nat, k: RecordId, first: seq<Step>): Bus {
    RunFrom(Apply(b, Replays(ReadRecord(p, k))), first)
  }

  /** The bus after the publish, and after others have gone on once more if it was answered. */
  function BeforeMark(b: Bus, p: nat, k: RecordId, outcome: Outcome, first: seq<Step>, second: seq<Step>): Bus {
    var published := Apply(BeforePublish(b, p, k, first), Replays(PublishReplay(p, outcome)));
    if outcome.Acked? then RunFrom(published, second) else published
  }

  /** How a request ends: with its mark, answered or not, or without one. */
  function Closing(p: nat, fate: Fate): Step {
    Replays(if fate.NotDone? then ReplayStops(p) else MarkReplayed(p, fate.Answered?))
  }

  /** The whole request, from a record that may be published. */
  function ReplayRun(b: Bus, p: nat, k: RecordId, outcome: Outcome, fate: Fate, first: seq<Step>, second: seq<Step>): Bus {
    var before := BeforeMark(b, p, k, outcome, first, second);
    if outcome.Acked? then Apply(before, Closing(p, fate)) else before
  }

  lemma ReadIs(b: Bus, p: nat, k: RecordId)
    requires p !in b.letters.replays && IsReplayable(b.letters.records, k)
    ensures Apply(b, Replays(ReadRecord(p, k)))
         == b.(letters := b.letters.(replays := b.letters.replays[p := Replay(k, b.letters.records[k].envelope.value, false)]))
  {
  }

  lemma PublishIs(b: Bus, p: nat, outcome: Outcome)
    requires p in b.letters.replays && !b.letters.replays[p].sent
    ensures var replay, after := b.letters.replays[p], Apply(b, Replays(PublishReplay(p, outcome)));
      && after.accepted == Send(b.accepted, replay.envelope, outcome)
      && after.letters.records == b.letters.records && after.letters.marks == b.letters.marks
      && if outcome.Acked? then p in after.letters.replays && after.letters.replays[p] == replay.(sent := true)
         else p !in after.letters.replays
  {
  }

  lemma MarkIs(b: Bus, p: nat, fate: Fate)
    requires p in b.letters.replays && b.letters.replays[p].sent
    ensures var k, after := b.letters.replays[p].record, Apply(b, Closing(p, fate));
      && after.letters.records == (if fate.NotDone? then b.letters.records else Marked(b.letters.records, k))
      && p !in after.letters.replays && after.accepted == b.accepted
      && after.letters.marks.wins
         == b.letters.marks.wins + (if fate.Answered? && IsUnmarked(b.letters.records, k) then multiset{k} else multiset{})
  {
  }

  /**
   * Whatever else happens on the bus between its steps, a request that publishes gives the broker what the run gives
   * it, leaves the records the run leaves, and reports success exactly when the run counts a win.
   */
  lemma ReplayIsARun(b: Bus, p: nat, k: RecordId, parses: Envelope -> bool, outcome: Outcome, fate: Fate,
                     first: seq<Step>, second: seq<Step>)
    requires p !in b.letters.replays && AllSpare(first, p) && AllSpare(second, p)
    requires MayPublish(b.letters.records, k, parses)
    ensures var records := b.letters.records;
      var during, marking := BeforePublish(b, p, k, first), BeforeMark(b, p, k, outcome, first, second);
      var published := Apply(during, Replays(PublishReplay(p, outcome)));
      var after, later := ReplayRun(b, p, k, outcome, fate, first, second), marking.letters.records;
      var answer := Answer(records, k, parses, outcome, fate, later);
      && GoesOn(records, during.letters.records) && GoesOn(during.letters.records, later)
      && published.accepted == during.accepted + multiset(SentFor(records, k, parses, outcome))
      && after.accepted == marking.accepted
      && after.letters.records == RecordsAfter(records, k, parses, outcome, fate, during.letters.records, later)
      && after.letters.marks.wins == marking.letters.marks.wins + (if answer.Replayed? then multiset{k} else multiset{})
      && p !in after.letters.replays
  {
    hide Apply;
    ReadIs(b, p, k);
    var read := Apply(b, Replays(ReadRecord(p, k)));
    OthersRun(read, first, p);
    var during := BeforePublish(b, p, k, first);
    PublishIs(during, p, outcome);
    if outcome.Acked? {
      var published := Apply(during, Replays(PublishReplay(p, outcome)));
      OthersRun(published, second, p);
      MarkIs(RunFrom(published, second), p, fate);
    }
  }

  /** A request that is refused is a run that leaves the bus as it was. */
  lemma RefusalIsARun(b: Bus, p: nat, k: RecordId, parses: Envelope -> bool, outcome: Outcome, fate: Fate)
    requires p !in b.letters.replays && !MayPublish(b.letters.records, k, parses)
    ensures var read := Apply(b, Replays(ReadRecord(p, k)));
      (if IsReplayable(b.letters.records, k) then Apply(read, Replays(ReplayStops(p))) else read) == b
    ensures !Answer(b.letters.records, k, parses, outcome, fate, b.letters.records).Replayed?
    ensures SentFor(b.letters.records, k, parses, outcome) == []
    ensures RecordsAfter(b.letters.records, k, parses, outcome, fate, b.letters.records, b.letters.records) == b.letters.records
  {
    if IsReplayable(b.letters.records, k) {
      ReadIs(b, p, k);
      assert b.letters.replays[p := Replay(k, b.letters.records[k].envelope.value, false)] - {p} == b.letters.replays;
    }
  }
}
