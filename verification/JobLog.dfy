/** The shape of a job's stream, and the text a client reads from it. */
module JobLog {
  import opened ChunkDeltas

  datatype Entry =
    | Claimed
    | Retrying(attempt: nat, maxAttempts: nat)
    | Chunk(text: string)
    | Done(fullText: string)
    | Error

  function Retries(k: nat, maxAttempts: nat): seq<Entry> {
    seq(k, i requires 0 <= i < k => Retrying(i + 2, maxAttempts))
  }

  function Chunks(texts: seq<string>): seq<Entry> {
    seq(|texts|, i requires 0 <= i < |texts| => Chunk(texts[i]))
  }

  lemma ChunksSnoc(texts: seq<string>, last: string)
    ensures Chunks(texts + [last]) == Chunks(texts) + [Chunk(last)]
  {
  }

  function Log(k: nat, maxAttempts: nat, texts: seq<string>, tail: seq<Entry>): seq<Entry> {
    [Claimed] + Retries(k, maxAttempts) + Chunks(texts) + tail
  }

  /** claimed, then numbered retries, then chunks, then at most one ending; `done` repeats what was streamed. */
  ghost predicate IsJobLog(entries: seq<Entry>, maxAttempts: nat) {
    || entries == []
    || entries == [Error]
    || exists k: nat, texts: seq<string>, tail: seq<Entry> :: entries == Log(k, maxAttempts, texts, tail) && k < maxAttempts
                                && (tail == [] || tail == [Error] || tail == [Done(Concat(texts))])
  }

  /** A log without an ending, and the two ways to end it, behind whatever the stream held before. */
  lemma Endings(before: seq<Entry>, k: nat, maxAttempts: nat, texts: seq<string>)
    requires k < maxAttempts
    ensures var base := before + Log(k, maxAttempts, texts, []);
      && before <= base && |base| > |before| && !IsEnding(base[|base| - 1])
      && IsJobLog(base[|before|..], maxAttempts)
      && before <= base + [Error] && IsJobLog((base + [Error])[|before|..], maxAttempts)
      && before <= base + [Done(Concat(texts))] && IsJobLog((base + [Done(Concat(texts))])[|before|..], maxAttempts)
  {
    hide Log, IsJobLog, IsEnding;
    EndingsAlone(k, maxAttempts, texts);
    var log := Log(k, maxAttempts, texts, []);
    BehindBefore(before, log, [Error]);
    BehindBefore(before, log, [Done(Concat(texts))]);
  }

  lemma BehindBefore(before: seq<Entry>, log: seq<Entry>, tail: seq<Entry>)
    ensures before <= before + log && (before + log)[|before|..] == log
    ensures before <= before + log + tail && (before + log + tail)[|before|..] == log + tail
    ensures log != [] ==> (before + log)[|before + log| - 1] == log[|log| - 1]
  {
  }

  lemma EndingsAlone(k: nat, maxAttempts: nat, texts: seq<string>)
    requires k < maxAttempts
    ensures var log := Log(k, maxAttempts, texts, []);
      && log != [] && !IsEnding(log[|log| - 1]) && IsJobLog(log, maxAttempts)
      && IsJobLog(log + [Error], maxAttempts) && IsJobLog(log + [Done(Concat(texts))], maxAttempts)
  {
    LogWithTail(k, maxAttempts, texts, [Error]);
    LogWithTail(k, maxAttempts, texts, [Done(Concat(texts))]);
  }

  lemma EmptyLog(maxAttempts: nat)
    ensures Log(0, maxAttempts, [], []) == [Claimed]
  {
  }

  /** A job that stops before or right after its claim. */
  lemma TrivialLogs(before: seq<Entry>, maxAttempts: nat)
    requires maxAttempts >= 1
    ensures IsJobLog(before[|before|..], maxAttempts)
    ensures before <= before + [Error] && IsJobLog((before + [Error])[|before|..], maxAttempts)
    ensures before <= before + [Claimed] && IsJobLog((before + [Claimed])[|before|..], maxAttempts)
    ensures before <= before + [Claimed] + [Error] && IsJobLog((before + [Claimed] + [Error])[|before|..], maxAttempts)
  {
    assert (before + [Error])[|before|..] == [Error];
    EmptyLog(maxAttempts);
    Endings(before, 0, maxAttempts, []);
  }

  lemma LogWithTail(k: nat, maxAttempts: nat, texts: seq<string>, tail: seq<Entry>)
    ensures Log(k, maxAttempts, texts, []) + tail == Log(k, maxAttempts, texts, tail)
    ensures Log(k, maxAttempts, [], []) + Chunks(texts) == Log(k, maxAttempts, texts, [])
  {
  }

  lemma LogIsContinued(before: seq<Entry>, k: nat, maxAttempts: nat, texts: seq<string>, tail: seq<Entry>)
    ensures before + Log(k, maxAttempts, texts, []) + tail == before + Log(k, maxAttempts, texts, tail)
  {
    LogWithTail(k, maxAttempts, texts, tail);
    hide Log;
  }

  lemma LogWithRetry(k: nat, maxAttempts: nat)
    ensures Log(k, maxAttempts, [], []) + [Retrying(k + 2, maxAttempts)] == Log(k + 1, maxAttempts, [], [])
  {
    assert Retries(k + 1, maxAttempts) == Retries(k, maxAttempts) + [Retrying(k + 2, maxAttempts)];
  }

  predicate IsEnding(e: Entry) { e.Done? || e.Error? }

  /** Which entry of a log sits where. */
  lemma LogAt(k: nat, maxAttempts: nat, texts: seq<string>, tail: seq<Entry>, i: nat)
    requires i < |Log(k, maxAttempts, texts, tail)|
    ensures var e := Log(k, maxAttempts, texts, tail)[i];
      && (i == 0 ==> e == Claimed)
      && (1 <= i <= k ==> e == Retrying(i + 1, maxAttempts))
      && (k < i <= k + |texts| ==> e.Chunk?)
      && (k + |texts| < i ==> e in tail)
  {
  }

  /** No retry follows a chunk and nothing follows an ending, so a replaying client never sees text twice. */
  lemma JobLogOrder(entries: seq<Entry>, maxAttempts: nat)
    requires IsJobLog(entries, maxAttempts)
    ensures forall i, j :: 0 <= i < j < |entries| && entries[i].Chunk? ==> !entries[j].Retrying? && !entries[j].Claimed?
    ensures forall i :: 0 <= i < |entries| - 1 ==> !IsEnding(entries[i])
    ensures forall i :: 0 <= i < |entries| && entries[i].Retrying? ==> entries[i] == Retrying(i + 1, maxAttempts) && i < maxAttempts
  {
    if entries != [] && entries != [Error] {
      var k: nat, texts: seq<string>, tail: seq<Entry> :|
        entries == Log(k, maxAttempts, texts, tail) && k < maxAttempts
        && (tail == [] || tail == [Error] || tail == [Done(Concat(texts))]);
      hide Log;
      forall i | 0 <= i < |entries| ensures LogEntryOk(entries[i], i, k, |texts|, maxAttempts) {
        LogAt(k, maxAttempts, texts, tail, i);
      }
      LogLength(k, maxAttempts, texts, tail);
    }
  }

  predicate LogEntryOk(e: Entry, i: nat, k: nat, chunks: nat, maxAttempts: nat) {
    if i == 0 then e == Claimed
    else if i <= k then e == Retrying(i + 1, maxAttempts)
    else if i <= k + chunks then e.Chunk?
    else IsEnding(e)
  }

  lemma LogLength(k: nat, maxAttempts: nat, texts: seq<string>, tail: seq<Entry>)
    ensures |Log(k, maxAttempts, texts, tail)| == 1 + k + |texts| + |tail|
  {
  }

  /** The `done` entry repeats exactly the text that was streamed before it. */
  lemma DoneRepeatsStream(entries: seq<Entry>, maxAttempts: nat)
    requires IsJobLog(entries, maxAttempts) && entries != [] && entries[|entries| - 1].Done?
    ensures entries[|entries| - 1].fullText == Streamed(entries)
  {
    var k: nat, texts: seq<string>, tail: seq<Entry> :|
      entries == Log(k, maxAttempts, texts, tail) && k < maxAttempts
      && (tail == [] || tail == [Error] || tail == [Done(Concat(texts))]);
    StreamedLog(k, maxAttempts, texts, tail);
    LogLength(k, maxAttempts, texts, tail);
    LogAt(k, maxAttempts, texts, tail, |entries| - 1);
  }

  /** The text a client has after reading these entries. */
  function Streamed(entries: seq<Entry>): string {
    if entries == [] then ""
    else Streamed(entries[..|entries| - 1]) + (if entries[|entries| - 1].Chunk? then entries[|entries| - 1].text else "")
  }

  lemma {:induction false} StreamedSum(a: seq<Entry>, b: seq<Entry>)
    ensures Streamed(a + b) == Streamed(a) + Streamed(b)
  {
    if b == [] {
      assert a + b == a;
    } else {
      StreamedSum(a, b[..|b| - 1]);
      assert (a + b)[..|a + b| - 1] == a + b[..|b| - 1];
    }
  }

  lemma {:induction false} StreamedChunks(texts: seq<string>)
    ensures Streamed(Chunks(texts)) == Concat(texts)
  {
    if texts != [] {
      StreamedChunks(texts[..|texts| - 1]);
      assert Chunks(texts)[..|texts| - 1] == Chunks(texts[..|texts| - 1]);
    }
  }

  lemma {:induction false} NothingStreamed(entries: seq<Entry>)
    requires forall e :: e in entries ==> !e.Chunk?
    ensures Streamed(entries) == ""
  {
    if entries != [] { NothingStreamed(entries[..|entries| - 1]); }
  }

  lemma StreamedLog(k: nat, maxAttempts: nat, texts: seq<string>, tail: seq<Entry>)
    requires forall e :: e in tail ==> !e.Chunk?
    ensures Streamed(Log(k, maxAttempts, texts, tail)) == Concat(texts)
  {
    var head := [Claimed] + Retries(k, maxAttempts);
    NothingStreamed(head);
    NothingStreamed(tail);
    StreamedChunks(texts);
    StreamedSum(head, Chunks(texts));
    StreamedSum(head + Chunks(texts), tail);
  }
}
