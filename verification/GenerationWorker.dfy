/**
 * One generation job: provider attempts with backoff, entries in the job's stream, its status, and
 * the assistant rows it persists, under every pattern of provider, Redis and database failures.
 *
 * A call that may raise returns `ok`. A failing write may or may not have taken effect: the reply can
 * be lost after the server applied the command.
 */
module GenerationWorker {
  import opened Backoff
  import opened ChunkDeltas
  import opened JobLog
  import opened Options

  datatype Status = Pending | Processing | Finished | Failed

  datatype MessageRow = Reply(content: string) | FailedReply

  datatype Verdict = Succeeded | GaveUp | Raised

  datatype Preparation = Raises | EmptyHistory | Ready

  /** Nothing yet; a failure before the start; or the start and then at most one ending. */
  predicate AreStatusWrites(written: seq<Status>) {
    || written == [] || written == [Failed] || written == [Processing]
    || written == [Processing, Failed] || written == [Processing, Finished]
  }

  class Worker {
    var stream: seq<Entry>
    var status: Status
    var assistantId: Option<nat>
    var messages: seq<MessageRow>
    var fullText: seq<string>
    ghost var waits: seq<real>
    /** The status writes that took effect, in order. */
    ghost var written: seq<Status>
    /** Redis writes that were not answered, and rows that could not be saved or whose commit was not answered. */
    ghost var unanswered: nat
    ghost var unsaved: nat

    constructor ()
      ensures stream == [] && status == Pending && assistantId == None && messages == [] && fullText == []
      ensures waits == [] && written == [] && unanswered == unsaved == 0
    {
      stream, status, assistantId, messages, fullText, waits, written := [], Pending, None, [], [], [], [];
      unanswered, unsaved := 0, 0;
    }

    method XAdd(e: Entry) returns (ok: bool)
      modifies this`stream, this`unanswered
      ensures stream == old(stream) + [e] || (!ok && stream == old(stream))
      ensures unanswered == old(unanswered) + if ok then 0 else 1
    {
      var reached, answered: bool := *, *;
      if reached { stream := stream + [e]; }
      ok := reached && answered;
      if !ok { unanswered := unanswered + 1; }
    }

    method HSetStatus(s: Status) returns (ok: bool)
      modifies this`status, this`written, this`unanswered
      ensures (status == s && written == old(written) + [s]) || (!ok && status == old(status) && written == old(written))
      ensures unanswered == old(unanswered) + if ok then 0 else 1
    {
      var reached, answered: bool := *, *;
      if reached { status, written := s, written + [s]; }
      ok := reached && answered;
      if !ok { unanswered := unanswered + 1; }
    }

    method HSetAssistantId(id: nat) returns (ok: bool)
      modifies this`assistantId, this`unanswered
      ensures assistantId == Some(id) || (!ok && assistantId == old(assistantId))
      ensures unanswered == old(unanswered) + if ok then 0 else 1
    {
      var reached, answered: bool := *, *;
      if reached { assistantId := Some(id); }
      ok := reached && answered;
      if !ok { unanswered := unanswered + 1; }
    }

    /** Inserts and commits; the id is the row's place in the table. */
    method Persist(row: MessageRow) returns (id: Option<nat>)
      modifies this`messages, this`unsaved
      ensures messages == old(messages) + [row] || (id.None? && messages == old(messages))
      ensures id.Some? ==> id.value == |old(messages)|
      ensures unsaved == old(unsaved) + if id.Some? then 0 else 1
    {
      var reached, answered: bool := *, *;
      id := if reached && answered then Some(|messages|) else None;
      if id.None? { unsaved := unsaved + 1; }
      if reached { messages := messages + [row]; }
    }

    /** A row that cannot be saved does not keep the failure from being reported. */
    method EmitFailure() returns (ok: bool)
      modifies this`stream, this`status, this`written, this`assistantId, this`messages, this`unanswered, this`unsaved
      ensures unanswered >= old(unanswered) && unsaved >= old(unsaved) && (ok <==> unanswered == old(unanswered))
      ensures ok ==> stream == old(stream) + [Error] && status == Failed
      ensures ok && unsaved == old(unsaved) ==> LeavesBehind(old(stream), old(messages), [Error], FailedReply, Failed)
      ensures (status == Failed && written == old(written) + [Failed]) || (status == old(status) && written == old(written))
      ensures stream == old(stream) + [Error] || (!ok && stream == old(stream))
      ensures status == Failed || (!ok && status == old(status) && stream == old(stream))
      ensures old(messages) <= messages && |messages| <= |old(messages)| + 1
      ensures |messages| > |old(messages)| ==> messages[|old(messages)|] == FailedReply
    {
      var id := Persist(FailedReply);
      ok := HSetStatus(Failed);
      if !ok { return; }
      if id.Some? {
        ok := HSetAssistantId(id.value);
        if !ok { return; }
      }
      ok := XAdd(Error);
    }

    /**
     * Publishes each delta right after noting it in `fullText`. Nothing is in the stream that is not noted,
     * and after success the two agree with the deltas of the provider's texts.
     */
    method AttemptGeneration(a: Attempt) returns (failure: Option<Failure>)
      requires fullText == []
      modifies this`stream, this`fullText, this`unanswered
      ensures stream == old(stream) + Chunks(fullText)
           || (&& fullText != [] && stream == old(stream) + Chunks(fullText[..|fullText| - 1])
               && failure.Some? && !failure.value.retryable)
      ensures failure.None? <==> Completes(a) && unanswered == old(unanswered)
      ensures unanswered == old(unanswered) ==> fullText == Published(a) && stream == old(stream) + Chunks(fullText)
      ensures unanswered == old(unanswered) && failure.Some? ==>
        failure.value == if a.HttpError? then Failure(a.retryable, a.retryAfter) else Failure(a.ending.transport, None)
      ensures unanswered != old(unanswered) ==>
        && unanswered == old(unanswered) + 1 && failure == Some(Failure(false, None))
        && a.Stream? && fullText != [] && fullText <= Deltas(a.texts)
    {
      match a
      case HttpError(retryable, retryAfter) =>
        assert stream == old(stream) + Chunks([]);
        failure := Some(Failure(retryable, retryAfter));
      case Stream(texts, ending) =>
        hide Deltas, Chunks;
        var ok := PublishDeltas(texts);
        failure :=
          if !ok then Some(Failure(false, None)) else if ending.Broke? then Some(Failure(ending.transport, None)) else None;
    }

    /** Notes a delta and then publishes it. */
    method PublishDelta(delta: string) returns (ok: bool)
      modifies this`stream, this`fullText, this`unanswered
      ensures fullText == old(fullText) + [delta] && unanswered == old(unanswered) + if ok then 0 else 1
      ensures stream == old(stream) + [Chunk(delta)] || (!ok && stream == old(stream))
    {
      fullText := fullText + [delta];
      ok := XAdd(Chunk(delta));
    }

    /** Publishes the deltas of a stream; a write that is not answered ends it. */
    method PublishDeltas(texts: seq<string>) returns (ok: bool)
      requires fullText == []
      modifies this`stream, this`fullText, this`unanswered
      ensures ok <==> unanswered == old(unanswered)
      ensures ok ==> fullText == Deltas(texts) && stream == old(stream) + Chunks(fullText)
      ensures !ok ==> unanswered == old(unanswered) + 1 && fullText != [] && fullText <= Deltas(texts)
      ensures !ok ==>
        stream == old(stream) + Chunks(fullText) || stream == old(stream) + Chunks(fullText[..|fullText| - 1])
    {
      NothingPublished();
      hide Advance, Retained, Deltas, Chunks;
      var retained := "";
      assert texts[..0] == [];
      for i := 0 to |texts|
        invariant retained == Retained(texts[..i]) && fullText == Deltas(texts[..i])
        invariant stream == old(stream) + Chunks(fullText) && unanswered == old(unanswered)
      {
        assert texts[..i + 1] == texts[..i] + [texts[i]];
        DeltasSnoc(texts[..i], texts[i]);
        var step := Advance(retained, texts[i]);
        retained := step.retained;
        if step.delta != "" {
          ghost var noted := fullText;
          ok := PublishDelta(step.delta);
          ChunksSnoc(noted, step.delta);
          assert fullText[..|fullText| - 1] == noted;
          assert old(stream) + Chunks(noted) + [Chunk(step.delta)] == old(stream) + (Chunks(noted) + [Chunk(step.delta)]);
          if !ok {
            DeltasOfPrefix(texts, i + 1);
            return;
          }
        }
      }
      assert texts[..|texts|] == texts;
      ok := true;
    }

    method RetryWait(attempt: nat, retryAfter: Option<real>, s: Settings) returns (wait: real)
      requires attempt >= 1 && s.baseDelay > 0.0 && s.cap > 0.0
      ensures IsWait(wait, attempt, retryAfter, s)
    {
      match retryAfter
      case Some(asked) => wait := Min(Max(asked, 0.0), s.cap);
      case None =>
        var window := Window(attempt, s);
        assert Doubled(s.baseDelay, attempt - 1) > 0.0;
        var jitter: real := *;
        wait := if window / 2.0 <= jitter <= window then jitter else window;
    }

    /** Saves the reply, then names it in the job's record and ends the stream. */
    method Complete() returns (ok: bool)
      modifies this`stream, this`status, this`written, this`assistantId, this`messages, this`unanswered, this`unsaved
      ensures unanswered >= old(unanswered) && unsaved >= old(unsaved) && (ok <==> unanswered == old(unanswered))
      ensures ok ==> stream == old(stream) + [if unsaved == old(unsaved) then Done(Concat(fullText)) else Error]
      ensures ok && unsaved == old(unsaved) ==>
        LeavesBehind(old(stream), old(messages), [Done(Concat(fullText))], Reply(Concat(fullText)), Finished)
      ensures old(messages) <= messages
      ensures (written == old(written) && status == old(status)) || IsEnded(old(written))
      ensures stream == old(stream)
           || (stream == old(stream) + [Done(Concat(fullText))] && Reply(Concat(fullText)) in messages[|old(messages)|..])
           || stream == old(stream) + [Error]
      ensures ok ==> |stream| == |old(stream)| + 1 && status == (if stream[|old(stream)|].Done? then Finished else Failed)
      ensures |stream| > |old(stream)| ==> status == (if stream[|old(stream)|].Done? then Finished else Failed)
      ensures status in {old(status), Finished, Failed}
    {
      var body := Concat(fullText);
      var id := Persist(Reply(body));
      if id.None? {
        ok := EmitFailure();
        return;
      }
      assert messages[|old(messages)|..] == [Reply(body)];
      ok := HSetStatus(Finished);
      if !ok { return; }
      ok := HSetAssistantId(id.value);
      if !ok { return; }
      ok := XAdd(Done(body));
    }

    /** The entries, the row and the status that a job without a failed write adds; its record names the row. */
    ghost predicate LeavesBehind(before: seq<Entry>, rows: seq<MessageRow>, entries: seq<Entry>, row: MessageRow, end: Status)
      reads this
    {
      stream == before + entries && messages == rows + [row] && status == end && assistantId == Some(|rows|)
    }

    /** The same of a job whose last attempt is `a`, after `k` retries: its reply if it completed, or else a failure. */
    ghost predicate JobLeaves(before: seq<Entry>, rows: seq<MessageRow>, a: Attempt, k: nat, maxAttempts: nat)
      reads this
    {
      var text := Concat(Published(a));
      if Completes(a) then
        LeavesBehind(before, rows, Log(k, maxAttempts, Published(a), [Done(text)]), Reply(text), Finished)
      else LeavesBehind(before, rows, Log(k, maxAttempts, Published(a), [Error]), FailedReply, Failed)
    }

    /** The last status written is an ending. */
    ghost predicate IsEnded(before: seq<Status>)
      reads this
    {
      (status.Finished? || status.Failed?) && written == before + [status]
    }

    /** What a finished or abandoned job leaves behind, compared with where it started. */
    ghost predicate Outcome(before: seq<Entry>, rows: nat, script: nat -> Attempt, s: Settings, ok: bool, attempts: nat)
      reads this
    {
      && before <= stream && rows <= |messages|
      && IsJobLog(stream[|before|..], MaxAttempts(s))
      && (ok ==> |stream| > |before| && IsEnding(stream[|stream| - 1]))
      && attempts <= MaxAttempts(s)
      && (forall i :: 1 <= i < attempts ==> MayRepeat(script(i)))
      && |waits| <= MaxAttempts(s) - 1 && |waits| <= attempts && AreWaits(waits, script, s)
      && (|stream| > |before| && IsEnding(stream[|stream| - 1]) ==>
            var last := stream[|stream| - 1];
            && status == (if last.Done? then Finished else Failed)
            && (last.Done? ==>
                  && Reply(last.fullText) in messages[rows..]
                  && 1 <= attempts && script(attempts).Stream? && script(attempts).ending.Complete?
                  && last.fullText == Concat(Deltas(script(attempts).texts))))
    }

    /** One attempt on top of a log of `k` retries; what it published extends the log. */
    method TryOnce(a: Attempt, ghost before: seq<Entry>, ghost k: nat, ghost maxAttempts: nat)
      returns (failure: Option<Failure>, ghost published: seq<string>)
      requires fullText == [] && stream == before + Log(k, maxAttempts, [], [])
      modifies this`stream, this`fullText, this`unanswered
      ensures stream == before + Log(k, maxAttempts, published, [])
      ensures unanswered >= old(unanswered)
      ensures failure.None? <==> Completes(a) && unanswered == old(unanswered)
      ensures unanswered == old(unanswered) ==> published == fullText == Published(a)
      ensures failure.Some? && failure.value.retryable && fullText == [] <==> MayRepeat(a) && unanswered == old(unanswered)
      ensures failure.Some? && failure.value.retryable ==> failure.value.retryAfter == AskedDelay(a)
      ensures fullText == [] ==> published == []
    {
      hide Log, Deltas;
      failure := AttemptGeneration(a);
      published := if stream == before + Log(k, maxAttempts, [], []) + Chunks(fullText) then fullText
                   else fullText[..|fullText| - 1];
      LogWithTail(k, maxAttempts, published, []);
    }

    /**
     * The retry loop: another attempt only after a retryable failure that published nothing. Leaves the log without
     * an ending; after success what was published is what was noted, which are the deltas of the last attempt.
     */
    method RunAttempts(script: nat -> Attempt, s: Settings, ghost before: seq<Entry>)
      returns (verdict: Verdict, attempts: nat, ghost k: nat, ghost published: seq<string>)
      requires stream == before + Log(0, MaxAttempts(s), [], [])
      requires fullText == [] && waits == [] && s.baseDelay > 0.0 && s.cap > 0.0
      modifies this`stream, this`fullText, this`waits, this`unanswered
      ensures unanswered >= old(unanswered)
      ensures unanswered == old(unanswered) ==>
        && IsLastAttempt(script, MaxAttempts(s), attempts) && k == attempts - 1 == |waits|
        && published == fullText == Published(script(attempts))
        && verdict == if Completes(script(attempts)) then Succeeded else GaveUp
      ensures verdict.Succeeded? ==> unanswered == old(unanswered)
      ensures 1 <= attempts <= MaxAttempts(s) && k < MaxAttempts(s)
      ensures stream == before + Log(k, MaxAttempts(s), published, [])
      ensures |waits| <= MaxAttempts(s) - 1 && |waits| <= attempts && AreWaits(waits, script, s)
      ensures forall i :: 1 <= i < attempts ==> MayRepeat(script(i))
    {
      hide Log, IsWait, Completes, Published, MayRepeat, AskedDelay;
      var maxAttempts := MaxAttempts(s);
      attempts, k, published := 1, 0, [];
      while true
        invariant 1 <= attempts <= maxAttempts && k == attempts - 1
        invariant stream == before + Log(k, maxAttempts, [], [])
        invariant fullText == []
        invariant |waits| == k && AreWaits(waits, script, s)
        invariant forall i :: 1 <= i < attempts ==> MayRepeat(script(i))
        invariant unanswered == old(unanswered)
        decreases maxAttempts - attempts
      {
        var failure;
        failure, published := TryOnce(script(attempts), before, k, maxAttempts);
        if failure.None? {
          CompletedIsLast(script(attempts));
          return Succeeded, attempts, k, published;
        }
        if !(failure.value.retryable && fullText == [] && attempts < maxAttempts) {
          return GaveUp, attempts, k, published;
        }
        var wait := RetryWait(attempts, failure.value.retryAfter, s);
        LogWithRetry(k, maxAttempts);
        published := [];
        var ok := XAdd(Retrying(attempts + 1, maxAttempts));
        if !ok {
          k := if stream == before + Log(k, maxAttempts, [], []) then k else k + 1;
          return Raised, attempts, k, published;
        }
        waits := waits + [wait];
        attempts, k := attempts + 1, k + 1;
      }
    }

    /**
     * The whole job. `script` is what the provider does on each attempt. The job may raise at any write, and then
     * its stream simply stops; a job that returns has written exactly one ending, and its status says which.
     */
    method ProcessOneJob(hasApiKey: bool, preparation: Preparation, script: nat -> Attempt, s: Settings)
      returns (ok: bool, attempts: nat)
      requires fullText == [] && waits == [] && s.baseDelay > 0.0 && s.cap > 0.0
      modifies this
      ensures Outcome(old(stream), |old(messages)|, script, s, ok, attempts)
      ensures unanswered >= old(unanswered) && unsaved >= old(unsaved)
      ensures unanswered == old(unanswered) ==> (ok <==> !(hasApiKey && preparation.Raises?))
      ensures unanswered == old(unanswered) && unsaved == old(unsaved) ==>
        if !hasApiKey then attempts == 0 && LeavesBehind(old(stream), old(messages), [Error], FailedReply, Failed)
        else if preparation.EmptyHistory? then
          attempts == 0 && LeavesBehind(old(stream), old(messages), [Claimed, Error], FailedReply, Failed)
        else if preparation.Raises? then
          attempts == 0 && stream == old(stream) + [Claimed] && messages == old(messages) && status == Processing
        else
          && IsLastAttempt(script, MaxAttempts(s), attempts) && |waits| == attempts - 1
          && JobLeaves(old(stream), old(messages), script(attempts), attempts - 1, MaxAttempts(s))
      ensures old(written) <= written && AreStatusWrites(written[|old(written)|..])
      ensures status == if written == old(written) then old(status) else written[|written| - 1]
      ensures old(messages) <= messages
      ensures Total(waits) <= Times(MaxAttempts(s) - 1, s.cap)
    {
      hide Log, AreWaits, Times, IsJobLog;
      attempts := 0;
      ghost var before := stream;
      NoWaits(script, s, MaxAttempts(s) - 1);
      TrivialLogs(before, MaxAttempts(s));
      if !hasApiKey {
        ok := EmitFailure();
        return;
      }
      ok := HSetStatus(Processing);
      if !ok { return; }
      ok := XAdd(Claimed);
      if !ok || preparation.Raises? {
        return false, attempts;
      }
      if preparation.EmptyHistory? {
        ok := EmitFailure();
        return;
      }
      ok, attempts := Generate(script, s, before);
    }

    /** From the claim to the ending. */
    method Generate(script: nat -> Attempt, s: Settings, ghost before: seq<Entry>) returns (ok: bool, attempts: nat)
      requires stream == before + [Claimed]
      requires fullText == [] && waits == [] && s.baseDelay > 0.0 && s.cap > 0.0
      modifies this
      ensures Outcome(before, |old(messages)|, script, s, ok, attempts)
      ensures unanswered >= old(unanswered) && unsaved >= old(unsaved)
      ensures unanswered == old(unanswered) ==> ok
      ensures unanswered == old(unanswered) && unsaved == old(unsaved) ==>
        && IsLastAttempt(script, MaxAttempts(s), attempts) && |waits| == attempts - 1
        && JobLeaves(before, old(messages), script(attempts), attempts - 1, MaxAttempts(s))
      ensures (written == old(written) && status == old(status)) || IsEnded(old(written))
      ensures old(messages) <= messages
      ensures Total(waits) <= Times(MaxAttempts(s) - 1, s.cap)
    {
      hide Log, AreWaits, Times, IsJobLog;
      EmptyLog(MaxAttempts(s));
      var verdict;
      ghost var k, published;
      verdict, attempts, k, published := RunAttempts(script, s, before);
      Endings(before, k, MaxAttempts(s), published);
      WaitsAreCapped(waits, script, s, MaxAttempts(s) - 1);
      LogIsContinued(before, k, MaxAttempts(s), published, [Error]);
      LogIsContinued(before, k, MaxAttempts(s), published, [Done(Concat(published))]);
      hide Published, MayRepeat, Completes, IsEnding;
      match verdict
      case Raised => ok := false;
      case GaveUp => ok := EmitFailure();
      case Succeeded => ok := Complete();
    }
  }

  lemma NothingPublished()
    ensures Deltas([]) == [] && Retained([]) == "" && Chunks([]) == []
  {
  }
}
