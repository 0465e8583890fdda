/**
 * Server-sent events over a job's stream (WHATWG HTML Living Standard, section 9.2): the browser
 * reconnects with the id of the last entry it received and the server reads on behind it.
 */
module SseReplay {
  import opened JobLog
  import opened Options

  /** An entry and the id the stream gave it. */
  datatype Item = Item(id: nat, entry: Entry)

  const BATCH := 50
  const TRIM_BOUND := 1000

  /** Ids grow along the stream; 0 stands for "from the beginning". */
  predicate IsStream(s: seq<Item>) {
    && (forall i :: 0 <= i < |s| ==> s[i].id > 0)
    && forall i, j :: 0 <= i < j < |s| ==> s[i].id < s[j].id
  }

  function LastId(s: seq<Item>): nat {
    if s == [] then 0 else s[|s| - 1].id
  }

  /** XREAD: at most `BATCH` entries behind the cursor. */
  function ReadAfter(s: seq<Item>, cursor: nat): seq<Item> {
    Take(Behind(s, cursor), BATCH)
  }

  function Behind(s: seq<Item>, cursor: nat): seq<Item> {
    if s == [] then [] else if s[0].id > cursor then s else Behind(s[1..], cursor)
  }

  function Take(s: seq<Item>, n: nat): seq<Item> {
    if |s| <= n then s else s[..n]
  }

  /** Entries up to and including the first ending. */
  function UpToEnding(s: seq<Item>): seq<Item> {
    if s == [] then [] else if IsEnding(s[0].entry) then [s[0]] else [s[0]] + UpToEnding(s[1..])
  }

  predicate HasEnding(s: seq<Item>) {
    exists i :: 0 <= i < |s| && IsEnding(s[i].entry)
  }

  /** A read gives the first entries behind the cursor: all of them, or fifty. */
  lemma ReadIsTheNextBatch(s: seq<Item>, cursor: nat)
    requires IsStream(s)
    ensures var batch := ReadAfter(s, cursor);
      && |batch| <= 50
      && (forall i :: 0 <= i < |batch| ==> batch[i] in s && batch[i].id > cursor)
      && (|batch| < 50 ==> forall item :: item in s && item.id > cursor ==> item in batch)
      && (forall item, i :: item in s && item.id > cursor && item !in batch && 0 <= i < |batch| ==> batch[i].id < item.id)
  {
    BehindIs(s, cursor);
  }

  lemma {:induction false} BehindIs(s: seq<Item>, cursor: nat)
    requires IsStream(s)
    ensures IsStream(Behind(s, cursor))
    ensures forall item :: item in Behind(s, cursor) <==> item in s && item.id > cursor
  {
    if s != [] && s[0].id <= cursor {
      BehindIs(s[1..], cursor);
      assert s == [s[0]] + s[1..];
    }
  }

  /** One round of the generator: yields a batch, moves the cursor, returns after an ending. */
  method ServeBatch(stream: seq<Item>, cursor: nat) returns (sent: seq<Item>, next: nat, finished: bool)
    ensures sent == UpToEnding(ReadAfter(stream, cursor))
    ensures next == if sent == [] then cursor else LastId(sent)
    ensures finished <==> HasEnding(ReadAfter(stream, cursor))
  {
    var batch := ReadAfter(stream, cursor);
    sent, next, finished := [], cursor, false;
    var i := 0;
    while i < |batch|
      invariant 0 <= i <= |batch|
      invariant sent == batch[..i]
      invariant next == if sent == [] then cursor else LastId(sent)
      invariant forall j :: 0 <= j < i ==> !IsEnding(batch[j].entry)
    {
      next := batch[i].id;
      sent := sent + [batch[i]];
      if IsEnding(batch[i].entry) {
        FirstEnding(batch, i);
        finished := true;
        return;
      }
      i := i + 1;
    }
    NoEnding(batch);
  }

  lemma {:induction false} FirstEnding(s: seq<Item>, i: nat)
    requires i < |s| && IsEnding(s[i].entry) && forall j :: 0 <= j < i ==> !IsEnding(s[j].entry)
    ensures UpToEnding(s) == s[..i + 1]
  {
    if i > 0 {
      FirstEnding(s[1..], i - 1);
      assert s[..i + 1] == [s[0]] + s[1..][..i];
    }
  }

  lemma {:induction false} NoEnding(s: seq<Item>)
    requires !HasEnding(s)
    ensures UpToEnding(s) == s
  {
    if s != [] {
      assert !IsEnding(s[0].entry);
      NoEnding(s[1..]);
    }
  }

  // Worker, server and a browser that may lose its connection at any moment.

  datatype Connection = Connection(cursor: nat, inFlight: seq<Item>, finished: bool)

  /** `log` is everything ever appended; trimming has removed its first `trimmed` entries from the stream. */
  datatype World = World(log: seq<Item>, trimmed: nat, received: seq<Item>, connection: Option<Connection>)

  datatype Event =
    | Append(item: Item)
    | Trim(count: nat)
    | Connect
    | Poll
    | Deliver
    | Disconnect

  function Visible(w: World): seq<Item> {
    if w.trimmed <= |w.log| then w.log[w.trimmed..] else []
  }

  /** An event that is not possible in a state changes nothing. */
  function Apply(w: World, e: Event): World {
    match e
    case Append(item) =>
      // A job writes nothing behind its ending (JobLog.JobLogOrder).
      if item.id > LastId(w.log) && !HasEnding(w.log) then w.(log := w.log + [item]) else w
    case Trim(count) =>
      if |w.log| >= w.trimmed + count + TRIM_BOUND then w.(trimmed := w.trimmed + count) else w
    case Connect => w.(connection := Some(Connection(LastId(w.received), [], false)))
    case Poll =>
      if w.connection.None? || w.connection.value.finished then w
      else
        var c := w.connection.value;
        var batch := ReadAfter(Visible(w), c.cursor);
        var sent := UpToEnding(batch);
        w.(connection := Some(Connection(if sent == [] then c.cursor else LastId(sent), c.inFlight + sent, HasEnding(batch))))
    case Deliver =>
      if w.connection.None? || w.connection.value.inFlight == [] then w
      else
        var c := w.connection.value;
        w.(received := w.received + [c.inFlight[0]], connection := Some(c.(inFlight := c.inFlight[1..])))
    case Disconnect => w.(connection := None)
  }

  const START := World([], 0, [], None)

  function Run(events: seq<Event>): World {
    if events == [] then START else Apply(Run(events[..|events| - 1]), events[|events| - 1])
  }

  function Sent(w: World): seq<Item> {
    if w.connection.None? then w.received else w.received + w.connection.value.inFlight
  }

  ghost predicate LogOk(log: seq<Item>) {
    IsStream(log) && OnlyLastEnds(log)
  }

  ghost predicate Inv(w: World) {
    && LogOk(w.log)
    && w.trimmed + (if w.trimmed > 0 then TRIM_BOUND else 0) <= |w.log|
    && (w.trimmed == 0 ==> Sent(w) <= w.log)
    && (w.trimmed == 0 && w.connection.Some? ==>
          && w.connection.value.cursor == LastId(Sent(w))
          && (w.connection.value.finished ==> Sent(w) == w.log && HasEnding(w.log)))
  }

  /** Reading behind the r-th entry gives exactly the entries from the r-th on. */
  lemma {:induction false} BehindPrefix(s: seq<Item>, r: nat)
    requires IsStream(s) && r <= |s|
    ensures Behind(s, LastId(s[..r])) == s[r..]
  {
    if s == [] || r == 0 {
    } else {
      BehindFrom(s, LastId(s[..r]), r);
    }
  }

  lemma {:induction false} BehindFrom(s: seq<Item>, cursor: nat, r: nat)
    requires r <= |s|
    requires forall i :: 0 <= i < r ==> s[i].id <= cursor
    requires forall i :: r <= i < |s| ==> s[i].id > cursor
    ensures Behind(s, cursor) == s[r..]
  {
    if r > 0 {
      BehindFrom(s[1..], cursor, r - 1);
    }
  }

  lemma {:induction false} UpToEndingOfTail(s: seq<Item>)
    requires forall i :: 0 <= i < |s| - 1 ==> !IsEnding(s[i].entry)
    ensures UpToEnding(s) == s
  {
    if |s| > 1 { UpToEndingOfTail(s[1..]); }
  }

  function BatchSize(s: seq<Item>, r: nat): nat
    requires r <= |s|
  {
    if |s| - r <= BATCH then |s| - r else BATCH
  }

  predicate OnlyLastEnds(s: seq<Item>) {
    forall i :: 0 <= i < |s| - 1 ==> !IsEnding(s[i].entry)
  }

  /** What a poll sends after `r` entries. */
  lemma BatchIs(s: seq<Item>, r: nat)
    requires LogOk(s) && r <= |s|
    ensures ReadAfter(s, LastId(s[..r])) == s[r..r + BatchSize(s, r)]
    ensures UpToEnding(s[r..r + BatchSize(s, r)]) == s[r..r + BatchSize(s, r)]
    ensures HasEnding(s[r..r + BatchSize(s, r)]) ==> r + BatchSize(s, r) == |s| && HasEnding(s)
  {
    BehindPrefix(s, r);
    var batch := s[r..r + BatchSize(s, r)];
    assert s[r..][..BatchSize(s, r)] == batch;
    UpToEndingOfTail(batch);
    if HasEnding(batch) {
      var i :| 0 <= i < |batch| && IsEnding(batch[i].entry);
      assert IsEnding(s[r + i].entry);
    }
  }

  lemma PollKeepsInv(w: World)
    requires Inv(w) && w.trimmed == 0 && w.connection.Some? && !w.connection.value.finished
    ensures Inv(Apply(w, Poll))
  {
    hide ReadAfter, UpToEnding, HasEnding, IsEnding, LogOk, LastId;
    var c, r := w.connection.value, |Sent(w)|;
    var batch := w.log[r..r + BatchSize(w.log, r)];
    assert Sent(w) == w.log[..r] && Visible(w) == w.log;
    BatchIs(w.log, r);
    var after := Apply(w, Poll);
    assert after.connection.value.inFlight == c.inFlight + batch;
    assert Sent(after) == Sent(w) + batch == w.log[..r + |batch|];
    LastOfSum(Sent(w), batch);
  }

  lemma LastOfSum(a: seq<Item>, b: seq<Item>)
    ensures LastId(a + b) == if b == [] then LastId(a) else LastId(b)
  {
    assert b == [] ==> a + b == a;
  }

  lemma AppendKeepsInv(w: World, item: Item)
    requires Inv(w)
    ensures Inv(Apply(w, Append(item)))
  {
    if item.id > LastId(w.log) && !HasEnding(w.log) {
      var log := w.log + [item];
      assert LogOk(log) by {
        forall i | 0 <= i < |log| - 1 ensures !IsEnding(log[i].entry) { assert log[i] == w.log[i]; }
      }
    }
  }

  lemma StepKeepsInv(w: World, e: Event)
    requires Inv(w)
    ensures Inv(Apply(w, e))
  {
    hide ReadAfter, UpToEnding;
    match e
    case Append(item) => AppendKeepsInv(w, item);
    case Trim(count) =>
    case Connect =>
      hide LogOk, HasEnding;
      if w.trimmed == 0 { assert w.received <= Sent(w); }
    case Poll =>
      if w.trimmed == 0 && w.connection.Some? && !w.connection.value.finished { PollKeepsInv(w); }
    case Deliver =>
      hide LogOk, HasEnding;
      if w.connection.Some? && w.connection.value.inFlight != [] {
        assert Sent(Apply(w, e)) == Sent(w);
      }
    case Disconnect =>
      if w.trimmed == 0 { assert w.received <= Sent(w); }
  }

  lemma {:induction false} RunKeepsInv(events: seq<Event>)
    ensures Inv(Run(events))
  {
    if events != [] {
      RunKeepsInv(events[..|events| - 1]);
      StepKeepsInv(Run(events[..|events| - 1]), events[|events| - 1]);
    }
  }

  /**
   * However connections break and however entries and reads interleave, while the stream stays within the trim
   * bound the browser has received a prefix of it, each entry once and in order; and when the server has finished
   * and everything it sent has arrived, that prefix is the whole stream with its ending.
   */
  lemma ClientReceivesStream(events: seq<Event>)
    requires |Run(events).log| <= 1000
    ensures var w := Run(events);
      && w.received <= w.log
      && (w.connection.Some? && w.connection.value.finished && w.connection.value.inFlight == [] ==>
            w.received == w.log && HasEnding(w.log))
  {
    RunKeepsInv(events);
    assert Run(events).received <= Sent(Run(events));
  }

  /** A connected browser that has not got everything always gets something new from the next poll. */
  lemma ReconnectMakesProgress(events: seq<Event>)
    requires |Run(events).log| <= 1000 && |Run(events).received| < |Run(events).log|
    ensures var w := Run(events);
      Apply(Apply(Apply(w, Connect), Poll), Deliver).received == w.log[..|w.received| + 1]
  {
    hide ReadAfter, UpToEnding, HasEnding, IsEnding, Run, LogOk;
    RunKeepsInv(events);
    var w := Run(events);
    assert w.received <= Sent(w);
    var r := |w.received|;
    assert w.received == w.log[..r];
    BatchIs(w.log, r);
    var batch := w.log[r..r + BatchSize(w.log, r)];
    var connected := Apply(w, Connect);
    var polled := Apply(connected, Poll);
    assert Visible(connected) == w.log;
    assert polled.connection.value.inFlight == [] + batch;
    assert Apply(polled, Deliver).received == w.log[..r] + [w.log[r]];
  }

  /** The r-th entry's id parts the stream. */
  lemma IdsPart(log: seq<Item>, r: nat)
    requires IsStream(log) && r <= |log|
    ensures forall i :: 0 <= i < r ==> log[i].id <= LastId(log[..r])
    ensures forall i :: r <= i < |log| ==> log[i].id > LastId(log[..r])
  {
    if r > 0 { assert LastId(log[..r]) == log[r - 1].id; }
  }

  lemma BehindTrimmed(log: seq<Item>, trimmed: nat, r: nat)
    requires IsStream(log) && r <= |log| && trimmed <= |log|
    ensures Behind(log[trimmed..], LastId(log[..r])) == log[r..] <==> trimmed <= r
  {
    var visible, cursor := log[trimmed..], LastId(log[..r]);
    IdsPart(log, r);
    hide LastId, IsStream, Behind;
    if trimmed <= r {
      BehindFrom(visible, cursor, r - trimmed);
      assert visible[r - trimmed..] == log[r..];
    } else {
      BehindFrom(visible, cursor, 0);
      assert |visible[0..]| < |log[r..]|;
    }
  }

  /** Past the bound: a reader continues without a gap exactly when nothing it still needs has been trimmed. */
  lemma TrimmingLosesEntries(w: World, r: nat)
    requires Inv(w) && r <= |w.log|
    ensures Behind(Visible(w), LastId(w.log[..r])) == w.log[r..] <==> w.trimmed <= r
  {
    hide Behind, LastId, IsStream, Sent;
    BehindTrimmed(w.log, w.trimmed, r);
  }
}
