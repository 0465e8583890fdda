/**
 * From the worker to the browser: what a client has read of a job's stream, and what the worker has saved.
 */
module StreamedReply {
  import opened Backoff
  import opened ChunkDeltas
  import opened GenerationWorker
  import opened JobLog
  import opened Options
  import opened SseReplay

  function Entries(items: seq<Item>): seq<Entry> {
    seq(|items|, i requires 0 <= i < |items| => items[i].entry)
  }

  /** What the client shows so far. */
  function Shown(w: World): string {
    Streamed(Entries(w.received))
  }

  predicate HasDone(items: seq<Item>) {
    exists item :: item in items && item.entry.Done?
  }

  lemma StreamedPrefix(a: seq<Entry>, b: seq<Entry>)
    requires a <= b
    ensures Streamed(a) <= Streamed(b)
  {
    assert b == a + b[|a|..];
    StreamedSum(a, b[|a|..]);
  }

  /** Nothing in a job's stream follows its ending. */
  lemma EndingIsLast(entries: seq<Entry>, maxAttempts: nat, i: nat)
    requires IsJobLog(entries, maxAttempts) && i < |entries| && IsEnding(entries[i])
    ensures i == |entries| - 1
  {
    JobLogOrder(entries, maxAttempts);
  }

  /**
   * Worker, server and browser together. `events` is any run in which the stream is the part of the job's entries that
   * has been written so far, within the trim bound, with connections breaking anywhere. At every moment the client
   * shows a prefix of the text the worker has streamed; and a client that has got `done` shows exactly the text of that
   * entry, which is the reply the worker has saved and the concatenated deltas of the attempt that succeeded.
   */
  lemma ClientShowsTheSavedReply(worker: Worker, before: seq<Entry>, rows: nat, script: nat -> Attempt, s: Settings,
                                 ok: bool, attempts: nat, events: seq<Event>)
    requires worker.Outcome(before, rows, script, s, ok, attempts)
    requires |Run(events).log| <= 1000 && Entries(Run(events).log) <= worker.stream[|before|..]
    ensures Shown(Run(events)) <= Streamed(worker.stream[|before|..])
    ensures HasDone(Run(events).received) ==>
      && Reply(Shown(Run(events))) in worker.messages[rows..]
      && worker.status == Finished
      && worker.stream != [] && worker.stream[|worker.stream| - 1] == Done(Shown(Run(events)))
      && script(attempts).Stream? && Shown(Run(events)) == Concat(Deltas(script(attempts).texts))
  {
    var w, entries := Run(events), worker.stream[|before|..];
    ClientReceivesStream(events);
    assert Entries(w.received) <= Entries(w.log);
    StreamedPrefix(Entries(w.received), entries);
    if HasDone(w.received) {
      var item :| item in w.received && item.entry.Done?;
      var i :| 0 <= i < |w.received| && w.received[i] == item;
      assert Entries(w.received)[i] == entries[i] == w.received[i].entry;
      EndingIsLast(entries, MaxAttempts(s), i);
      assert Entries(w.received) == entries;
      DoneRepeatsStream(entries, MaxAttempts(s));
    }
  }
}
