/**
 * What the JetStream consumers answer to a message, over every delivery it gets.
 */
module Deliveries {
  import opened Options

  /** What a consumer does with a message it cannot use: the three consumers differ only here. */
  datatype Consumer = EventIngest | CallHistory | ConversationCleanup

  datatype Kind = Unparseable | NotACall | Event

  /** What a write comes to; one that committed can lose its answer and then reads as an error. */
  datatype Write = Committed | CommittedUnanswered | ConversationGone | WriteError

  /** What the dead-letter publish comes to. */
  datatype Letter = Accepted | AcceptedUnanswered | Refused

  datatype Action =
    | Wrote | WroteUnanswered | FoundGone | FailedToWrite
    | Published | PublishedUnanswered | FailedToPublish
    | Ack | Nak | Term | ShutdownNak

  predicate IsIgnored(c: Consumer, kind: Kind) {
    c.CallHistory? && kind.NotACall?
  }

  predicate TermsWhenGone(c: Consumer) { c.CallHistory? }

  predicate AcksUnparseable(c: Consumer) { c.ConversationCleanup? }

  function WriteAction(c: Consumer, write: Write): Action {
    match write
    case Committed => Wrote
    case CommittedUnanswered => WroteUnanswered
    case ConversationGone => if TermsWhenGone(c) then FoundGone else FailedToWrite
    case WriteError => FailedToWrite
  }

  function LetterAction(letter: Letter): Action {
    match letter
    case Accepted => Published
    case AcceptedUnanswered => PublishedUnanswered
    case Refused => FailedToPublish
  }

  /** What one handling does, in order; `count` is the broker's delivery count, when it gives one. */
  function Handling(c: Consumer, kind: Kind, count: Option<nat>, max: nat, write: Write, letter: Letter): seq<Action> {
    if kind.Unparseable? then [if AcksUnparseable(c) then Ack else Term]
    else if IsIgnored(c, kind) then [Ack]
    else
      var action := WriteAction(c, write);
      if action.Wrote? then [Wrote, Ack]
      else if action.FoundGone? then [FoundGone, Term]
      else if count.GetOr(1) < max then [action, Nak]
      else if letter.Accepted? then [action, Published, Ack]
      else [action, LetterAction(letter)]
  }

  /** An unreadable message is acked by the file cleanup and termed by the other two; nobody writes or tries again. */
  lemma UnreadableIsAnswered(count: Option<nat>, max: nat, write: Write, letter: Letter)
    ensures Handling(ConversationCleanup, Unparseable, count, max, write, letter) == [Ack]
    ensures Handling(EventIngest, Unparseable, count, max, write, letter) == [Term]
    ensures Handling(CallHistory, Unparseable, count, max, write, letter) == [Term]
  {
  }

  /** An event that is no call is acked unread by the call history, and handled like any other elsewhere. */
  lemma ForeignEventIsAnswered(count: Option<nat>, max: nat, write: Write, letter: Letter)
    ensures Handling(CallHistory, NotACall, count, max, write, letter) == [Ack]
    ensures forall c :: c != CallHistory ==>
      Handling(c, NotACall, count, max, write, letter) == Handling(c, Event, count, max, write, letter)
  {
  }

  /** A conversation that is gone ends a call's message at once; elsewhere it is a failed write like any other. */
  lemma GoneConversationIsAnswered(count: Option<nat>, max: nat, letter: Letter)
    ensures Handling(CallHistory, Event, count, max, ConversationGone, letter) == [FoundGone, Term]
    ensures forall c :: c != CallHistory ==>
      Handling(c, Event, count, max, ConversationGone, letter) == Handling(c, Event, count, max, WriteError, letter)
  {
  }

  /**
   * What becomes of a write: answered, it is acked at once. Otherwise the message is nakked below the limit, a missing
   * count being the first, and at the limit dead-lettered, and acked only if the dead letter is answered.
   */
  lemma WriteIsAnswered(c: Consumer, count: Option<nat>, max: nat, letter: Letter)
    ensures Handling(c, Event, count, max, Committed, letter) == [Wrote, Ack]
    ensures (count.Some? && count.value < max) || (count.None? && 1 < max) ==>
      && Handling(c, Event, count, max, WriteError, letter) == [FailedToWrite, Nak]
      && Handling(c, Event, count, max, CommittedUnanswered, letter) == [WroteUnanswered, Nak]
    ensures (count.Some? && count.value >= max) || (count.None? && 1 >= max) ==>
      && Handling(c, Event, count, max, WriteError, Accepted) == [FailedToWrite, Published, Ack]
      && Handling(c, Event, count, max, WriteError, AcceptedUnanswered) == [FailedToWrite, PublishedUnanswered]
      && Handling(c, Event, count, max, WriteError, Refused) == [FailedToWrite, FailedToPublish]
      && Handling(c, Event, count, max, CommittedUnanswered, Accepted) == [WroteUnanswered, Published, Ack]
  {
  }

  /** A handler instance; `log` is everything it has done. */
  class Handler {
    const consumer: Consumer
    const maxDeliver: nat
    var log: seq<Action>

    constructor (consumer: Consumer, maxDeliver: nat)
      ensures this.consumer == consumer && this.maxDeliver == maxDeliver && log == []
    {
      this.consumer, this.maxDeliver, this.log := consumer, maxDeliver, [];
    }

    /** Says what the handler is told; an unanswered commit looks like any other error. */
    method TryWrite(write: Write) returns (told: Write)
      modifies this
      ensures log == old(log) + [WriteAction(consumer, write)]
      ensures told == if write.CommittedUnanswered? then WriteError else write
    {
      log := log + [WriteAction(consumer, write)];
      told := if write == CommittedUnanswered then WriteError else write;
    }

    /** Returns false when the publish throws, whether or not the broker took the letter. */
    method PublishDlq(letter: Letter) returns (answered: bool)
      modifies this
      ensures log == old(log) + [LetterAction(letter)] && (answered <==> letter.Accepted?)
    {
      log := log + [LetterAction(letter)];
      answered := letter == Accepted;
    }

    /** Returns false when the handler throws, which leaves the message without an answer. */
    method HandleMessage(kind: Kind, count: Option<nat>, write: Write, letter: Letter) returns (returned: bool)
      modifies this
      ensures log == old(log) + Handling(consumer, kind, count, maxDeliver, write, letter)
      ensures returned <==>
        && FailedToPublish !in Handling(consumer, kind, count, maxDeliver, write, letter)
        && PublishedUnanswered !in Handling(consumer, kind, count, maxDeliver, write, letter)
    {
      returned := true;
      if kind == Unparseable {
        log := log + [if AcksUnparseable(consumer) then Ack else Term];
        return;
      }
      if IsIgnored(consumer, kind) {
        log := log + [Ack];
        return;
      }
      var told := TryWrite(write);
      if told == Committed {
        log := log + [Ack];
        return;
      }
      if told == ConversationGone && TermsWhenGone(consumer) {
        log := log + [Term];
        return;
      }
      var deliveryCount := count.GetOr(1);
      if deliveryCount >= maxDeliver {
        var answered := PublishDlq(letter);
        if !answered { return false; }
        log := log + [Ack];
        return;
      }
      log := log + [Nak];
    }
  }

  // A message's life: it is delivered again until it is answered for good or the broker gives up.

  /**
   * The consumer is shutting down, or handles the message and may stop after `done` actions or have its
   * answer lost.
   */
  datatype Delivery = Shutdown | Handle(write: Write, letter: Letter, done: nat, answerLost: bool)

  /** `closed` when an ack or term has reached the broker. */
  datatype Life = Life(log: seq<Action>, deliveries: nat, closed: bool)

  function Prefix(s: seq<Action>, n: nat): seq<Action> {
    if n < |s| then s[..n] else s
  }

  function DoneIn(c: Consumer, kind: Kind, max: nat, count: nat, d: Delivery): seq<Action> {
    match d
    case Shutdown => [ShutdownNak]
    case Handle(write, letter, done, _) => Prefix(Handling(c, kind, Some(count), max, write, letter), done)
  }

  predicate Closes(actions: seq<Action>, d: Delivery) {
    (Ack in actions || Term in actions) && d.Handle? && !d.answerLost
  }

  function Next(c: Consumer, kind: Kind, max: nat, life: Life, d: Delivery): Life {
    if life.closed || life.deliveries >= max then life
    else
      var actions := DoneIn(c, kind, max, life.deliveries + 1, d);
      Life(life.log + actions, life.deliveries + 1, Closes(actions, d))
  }

  function LifeOf(c: Consumer, kind: Kind, max: nat, ds: seq<Delivery>): Life {
    if ds == [] then Life([], 0, false) else Next(c, kind, max, LifeOf(c, kind, max, ds[..|ds| - 1]), ds[|ds| - 1])
  }

  function Count(log: seq<Action>, a: Action): nat {
    if log == [] then 0 else Count(log[..|log| - 1], a) + if log[|log| - 1] == a then 1 else 0
  }

  /**
   * An ack comes right after the write, or after the dead letter was accepted, or for a message that
   * asks for nothing.
   */
  predicate AckIsEarned(c: Consumer, kind: Kind, log: seq<Action>, i: nat) {
    i < |log| && log[i] == Ack ==>
      || (i > 0 && log[i - 1] in {Wrote, Published})
      || IsIgnored(c, kind) || (kind.Unparseable? && AcksUnparseable(c))
  }

  predicate TermIsEarned(kind: Kind, log: seq<Action>, i: nat) {
    i < |log| && log[i] == Term ==> kind.Unparseable? || (i > 0 && log[i - 1] == FoundGone)
  }

  predicate AllEarned(c: Consumer, kind: Kind, log: seq<Action>) {
    forall i :: 0 <= i < |log| ==> AckIsEarned(c, kind, log, i) && TermIsEarned(kind, log, i)
  }

  lemma HandlingIsEarned(c: Consumer, kind: Kind, max: nat, count: nat, d: Delivery)
    ensures AllEarned(c, kind, DoneIn(c, kind, max, count, d))
  {
  }

  lemma EarnedAddsUp(c: Consumer, kind: Kind, a: seq<Action>, b: seq<Action>)
    requires AllEarned(c, kind, a) && AllEarned(c, kind, b)
    ensures AllEarned(c, kind, a + b)
  {
    forall i | 0 <= i < |a + b|
      ensures AckIsEarned(c, kind, a + b, i) && TermIsEarned(kind, a + b, i)
    {
      if i < |a| {
        assert AckIsEarned(c, kind, a, i) && TermIsEarned(kind, a, i);
      } else {
        assert AckIsEarned(c, kind, b, i - |a|) && TermIsEarned(kind, b, i - |a|);
      }
    }
  }

  /**
   * Over all deliveries, with stops and lost answers anywhere: a message is acked only once its write committed or
   * its dead letter was accepted, or because it asks for nothing; it is termed only when unreadable or when its
   * conversation is gone.
   */
  lemma {:induction false} AnswersAreEarned(c: Consumer, kind: Kind, max: nat, ds: seq<Delivery>)
    ensures AllEarned(c, kind, LifeOf(c, kind, max, ds).log)
  {
    hide AllEarned, DoneIn;
    if ds == [] {
      assert AllEarned(c, kind, []) by { NothingToEarn(c, kind); }
    } else {
      var before := LifeOf(c, kind, max, ds[..|ds| - 1]);
      AnswersAreEarned(c, kind, max, ds[..|ds| - 1]);
      HandlingIsEarned(c, kind, max, before.deliveries + 1, ds[|ds| - 1]);
      EarnedAddsUp(c, kind, before.log, DoneIn(c, kind, max, before.deliveries + 1, ds[|ds| - 1]));
    }
  }

  lemma NothingToEarn(c: Consumer, kind: Kind)
    ensures AllEarned(c, kind, [])
  {
  }

  lemma {:induction false} CountAddsUp(a: seq<Action>, b: seq<Action>, x: Action)
    ensures Count(a + b, x) == Count(a, x) + Count(b, x)
  {
    if b == [] {
      assert a + b == a;
    } else {
      assert (a + b)[..|a + b| - 1] == a + b[..|b| - 1];
      CountAddsUp(a, b[..|b| - 1], x);
    }
  }

  lemma {:induction false} CountOfAbsent(log: seq<Action>, x: Action)
    requires x !in log
    ensures Count(log, x) == 0
  {
    if log != [] { CountOfAbsent(log[..|log| - 1], x); }
  }

  lemma {:induction false} CountOfLast(log: seq<Action>, x: Action)
    requires log != [] && log[|log| - 1] == x && x !in log[..|log| - 1]
    ensures Count(log, x) == 1
  {
    CountOfAbsent(log[..|log| - 1], x);
  }

  /** The handler's own naks stay below the limit; a shutdown's nak spends a delivery all the same. */
  lemma {:induction false} NaksStayBelowTheLimit(c: Consumer, kind: Kind, max: nat, ds: seq<Delivery>)
    ensures var life := LifeOf(c, kind, max, ds);
      && life.deliveries <= max
      && Count(life.log, Nak) + Count(life.log, ShutdownNak) <= life.deliveries
      && (max > 0 ==> Count(life.log, Nak) <= max - 1)
  {
    hide DoneIn, Closes, Count;
    if ds == [] {
      CountOfAbsent([], Nak);
      CountOfAbsent([], ShutdownNak);
    } else {
      var before, d := LifeOf(c, kind, max, ds[..|ds| - 1]), ds[|ds| - 1];
      NaksStayBelowTheLimit(c, kind, max, ds[..|ds| - 1]);
      NextNaks(c, kind, max, before, d);
    }
  }

  lemma NextNaks(c: Consumer, kind: Kind, max: nat, before: Life, d: Delivery)
    requires before.deliveries <= max
    requires Count(before.log, Nak) + Count(before.log, ShutdownNak) <= before.deliveries
    requires max > 0 ==> Count(before.log, Nak) <= max - 1
    ensures var life := Next(c, kind, max, before, d);
      && life.deliveries <= max
      && Count(life.log, Nak) + Count(life.log, ShutdownNak) <= life.deliveries
      && (max > 0 ==> Count(life.log, Nak) <= max - 1)
  {
    hide DoneIn, Closes, Count;
    var actions := DoneIn(c, kind, max, before.deliveries + 1, d);
    NaksOf(c, kind, max, before.deliveries + 1, d);
    CountAddsUp(before.log, actions, Nak);
    CountAddsUp(before.log, actions, ShutdownNak);
  }

  lemma NaksOf(c: Consumer, kind: Kind, max: nat, count: nat, d: Delivery)
    ensures var actions := DoneIn(c, kind, max, count, d);
      && Count(actions, Nak) == (if Nak in actions then 1 else 0)
      && Count(actions, ShutdownNak) == (if d.Shutdown? then 1 else 0)
      && (Nak in actions ==> count < max && d.Handle?)
  {
    var actions := DoneIn(c, kind, max, count, d);
    if d.Shutdown? {
      CountOfLast(actions, ShutdownNak);
      CountOfAbsent(actions, Nak);
    } else {
      CountOfAbsent(actions, ShutdownNak);
      if Nak in actions { CountOfLast(actions, Nak); } else { CountOfAbsent(actions, Nak); }
    }
  }

  // When a message is lost.

  /** The write or the dead letter took effect, answered or not. */
  predicate IsSafe(log: seq<Action>) {
    Wrote in log || WroteUnanswered in log || Published in log || PublishedUnanswered in log
  }

  /** Neither stored nor dead-lettered. */
  predicate IsLost(life: Life) {
    !IsSafe(life.log)
  }

  predicate TakesEffect(write: Write) {
    write.Committed? || write.CommittedUnanswered?
  }

  predicate FindsGone(c: Consumer, d: Delivery) {
    d.Handle? && d.write.ConversationGone? && TermsWhenGone(c)
  }

  predicate Saves(c: Consumer, max: nat, count: nat, d: Delivery) {
    d.Handle? && ((TakesEffect(d.write) && d.done >= 1)
                  || (!d.write.Committed? && !FindsGone(c, d) && count >= max && !d.letter.Refused? && d.done >= 2))
  }

  lemma SavesIffSafe(c: Consumer, max: nat, count: nat, d: Delivery)
    ensures Saves(c, max, count, d) <==> IsSafe(DoneIn(c, Event, max, count, d))
  {
    if d.Handle? {
      var all := Handling(c, Event, Some(count), max, d.write, d.letter);
      if |all| >= 1 && d.done >= 1 { assert all[0] in Prefix(all, d.done); }
      if |all| >= 2 && d.done >= 2 { assert all[1] in Prefix(all, d.done); }
    }
  }

  lemma SafeAddsUp(a: seq<Action>, b: seq<Action>)
    ensures IsSafe(a + b) <==> IsSafe(a) || IsSafe(b)
  {
  }

  lemma UnsavedStaysOpen(c: Consumer, max: nat, count: nat, d: Delivery)
    requires !FindsGone(c, d)
    ensures !Saves(c, max, count, d) ==> !Closes(DoneIn(c, Event, max, count, d), d)
  {
  }

  lemma NextIsLostIff(c: Consumer, max: nat, before: Life, d: Delivery)
    requires !FindsGone(c, d) && IsLost(before) && !before.closed && before.deliveries < max
    ensures var after := Next(c, Event, max, before, d);
      && after.deliveries == before.deliveries + 1
      && (IsLost(after) <==> !Saves(c, max, after.deliveries, d))
      && (IsLost(after) ==> !after.closed)
  {
    var count := before.deliveries + 1;
    SavesIffSafe(c, max, count, d);
    UnsavedStaysOpen(c, max, count, d);
    SafeAddsUp(before.log, DoneIn(c, Event, max, count, d));
    hide DoneIn, Saves, Closes, IsSafe;
  }

  lemma SafeStaysSafe(c: Consumer, max: nat, before: Life, d: Delivery)
    requires !IsLost(before)
    ensures !IsLost(Next(c, Event, max, before, d))
  {
    SafeAddsUp(before.log, DoneIn(c, Event, max, before.deliveries + 1, d));
    hide DoneIn, Closes, IsSafe;
  }

  /**
   * An event whose conversation is not found gone is lost exactly when no delivery stored it, answered or not, and the
   * last allowed one did not get a dead letter to the broker: it was a shutdown, stopped too early, or its publish was
   * refused. A lost event is never acked or termed.
   */
  lemma {:induction false} LostIff(c: Consumer, max: nat, ds: seq<Delivery>)
    requires |ds| <= max
    requires forall i :: 0 <= i < |ds| ==> !FindsGone(c, ds[i])
    ensures IsLost(LifeOf(c, Event, max, ds)) <==> forall i :: 0 <= i < |ds| ==> !Saves(c, max, i + 1, ds[i])
    ensures IsLost(LifeOf(c, Event, max, ds)) ==> LifeOf(c, Event, max, ds).deliveries == |ds| && !LifeOf(c, Event, max, ds).closed
  {
    hide Next, Saves, IsLost, FindsGone;
    if ds == [] {
      NothingSafeYet();
    } else {
      var last := |ds| - 1;
      var before := LifeOf(c, Event, max, ds[..last]);
      LostIff(c, max, ds[..last]);
      assert forall i :: 0 <= i < last ==> ds[..last][i] == ds[i];
      if IsLost(before) {
        NextIsLostIff(c, max, before, ds[last]);
      } else {
        SafeStaysSafe(c, max, before, ds[last]);
      }
    }
  }

  lemma NothingSafeYet()
    ensures IsLost(Life([], 0, false))
  {
  }

  /** A write whose answer is lost on the last delivery is stored although the message is never answered. */
  lemma UnansweredWriteIsNotLost()
    ensures var life := LifeOf(EventIngest, Event, 1, [Handle(CommittedUnanswered, Refused, 2, false)]);
      life == Life([WroteUnanswered, FailedToPublish], 1, false) && !IsLost(life)
  {
    var one := Handle(CommittedUnanswered, Refused, 2, false);
    assert [one][..0] == [];
  }

  /** So is a letter the broker took without answering. */
  lemma UnansweredLetterIsNotLost()
    ensures var life := LifeOf(EventIngest, Event, 1, [Handle(WriteError, AcceptedUnanswered, 2, false)]);
      life == Life([FailedToWrite, PublishedUnanswered], 1, false) && !IsLost(life)
  {
    var one := Handle(WriteError, AcceptedUnanswered, 2, false);
    assert [one][..0] == [];
  }

  /** An ack that reaches the broker ends the deliveries; one that is lost has the message delivered and stored again. */
  lemma LostAckIsDeliveredAgain(lost: bool)
    ensures var life := LifeOf(EventIngest, Event, 3, [Handle(Committed, Accepted, 2, lost), Handle(Committed, Accepted, 2, false)]);
      life == if lost then Life([Wrote, Ack, Wrote, Ack], 2, true) else Life([Wrote, Ack], 1, true)
  {
    var one, two := Handle(Committed, Accepted, 2, lost), Handle(Committed, Accepted, 2, false);
    assert [one, two][..1] == [one] && [one][..0] == [];
    assert LifeOf(EventIngest, Event, 3, [one]) == Life([Wrote, Ack], 1, !lost);
  }

  /** A handler that stops after its first action has written and not answered; the message comes again. */
  lemma StoppedHandlerIsDeliveredAgain()
    ensures var life := LifeOf(EventIngest, Event, 3, [Handle(Committed, Accepted, 1, false), Handle(Committed, Accepted, 2, false)]);
      life == Life([Wrote, Wrote, Ack], 2, true)
  {
    var one, two := Handle(Committed, Accepted, 1, false), Handle(Committed, Accepted, 2, false);
    assert [one, two][..1] == [one] && [one][..0] == [];
    assert LifeOf(EventIngest, Event, 3, [one]) == Life([Wrote], 1, false);
  }

  /** Two shutdowns spend both deliveries of an event that every handler could have stored. */
  lemma ShutdownsLoseTheMessage()
    ensures var life := LifeOf(EventIngest, Event, 2, [Shutdown, Shutdown, Handle(Committed, Accepted, 2, false)]);
      life == Life([ShutdownNak, ShutdownNak], 2, false) && IsLost(life)
  {
    var s, h := Shutdown, Handle(Committed, Accepted, 2, false);
    assert [s, s, h][..2] == [s, s] && [s, s][..1] == [s] && [s][..0] == [];
    assert LifeOf(EventIngest, Event, 2, [s]) == Life([ShutdownNak], 1, false);
    assert LifeOf(EventIngest, Event, 2, [s, s]) == Life([ShutdownNak, ShutdownNak], 2, false);
  }

  /** A failing dead-letter publish on the last delivery leaves a message nobody has and nobody will deliver again. */
  lemma FailedDeadLetterLosesTheMessage()
    ensures var life := LifeOf(EventIngest, Event, 2, [Handle(WriteError, Accepted, 3, false), Handle(WriteError, Refused, 3, false)]);
      life == Life([FailedToWrite, Nak, FailedToWrite, FailedToPublish], 2, false)
  {
    var one, two := Handle(WriteError, Accepted, 3, false), Handle(WriteError, Refused, 3, false);
    assert [one, two][..1] == [one] && [one][..0] == [];
    assert LifeOf(EventIngest, Event, 2, [one]) == Life([FailedToWrite, Nak], 1, false);
  }

  /**
   * An event that can never be written, with nothing else going wrong, is nakked one time fewer than
   * the limit and then dead-lettered.
   */
  lemma {:induction false} HopelessEventEndsInTheDlq(c: Consumer, max: nat, ds: seq<Delivery>)
    requires 1 <= |ds| <= max && forall d :: d in ds ==> d == Handle(WriteError, Accepted, 3, false)
    ensures var life := LifeOf(c, Event, max, ds);
      && life.deliveries == |ds| && (life.closed <==> |ds| == max)
      && Count(life.log, Nak) == (if |ds| == max then max - 1 else |ds|)
      && (Published in life.log <==> |ds| == max)
  {
    hide DoneIn, Closes, Count;
    var last := |ds| - 1;
    var before := LifeOf(c, Event, max, ds[..last]);
    assert forall e :: e in ds[..last] ==> e in ds;
    assert ds[last] in ds;
    if last > 0 { HopelessEventEndsInTheDlq(c, max, ds[..last]); } else { CountOfAbsent([], Nak); }
    HopelessStep(c, max, before);
  }

  lemma HopelessStep(c: Consumer, max: nat, before: Life)
    requires before.deliveries < max && !before.closed
    ensures var life := Next(c, Event, max, before, Handle(WriteError, Accepted, 3, false));
      && life.deliveries == before.deliveries + 1 && (life.closed <==> life.deliveries == max)
      && Count(life.log, Nak) == Count(before.log, Nak) + (if life.deliveries == max then 0 else 1)
      && (Published in life.log <==> Published in before.log || life.deliveries == max)
  {
    var d := Handle(WriteError, Accepted, 3, false);
    var actions := DoneIn(c, Event, max, before.deliveries + 1, d);
    assert actions == if before.deliveries + 1 < max then [FailedToWrite, Nak] else [FailedToWrite, Published, Ack];
    CountAddsUp(before.log, actions, Nak);
    NaksOf(c, Event, max, before.deliveries + 1, d);
    hide DoneIn, Count;
  }
}
