/**
 * Streamed text, gathered per key and applied once per animation frame. The callback that applies a batch may
 * call the batcher again.
 */
module StreamBatching {
  import opened Options

  type Texts = map<string, string>

  function TextOf(m: Texts, k: string): string {
    if k in m then m[k] else ""
  }

  /** Appends, key by key. */
  function Append(m: Texts, more: Texts): Texts {
    map k | k in m.Keys + more.Keys :: TextOf(m, k) + TextOf(more, k)
  }

  /** What a callback may do while it is applying a batch. */
  datatype Call = Add(key: string, text: string) | FlushNow(reaction: seq<Call>) | CancelPending

  /**
   * `shown` is what has been applied, `kept` what has been added and not dropped by a cancel; `frames` are the
   * handles the scheduler still has to fire.
   */
  datatype State = State(buffered: Texts, handle: Option<nat>, frames: set<nat>, issued: nat, shown: Texts, kept: Texts)

  const START := State(map[], None, {}, 0, map[], map[])

  function Added(s: State, key: string, text: string): State {
    if text == "" then s
    else
      State(s.buffered[key := TextOf(s.buffered, key) + text],
            if s.handle.None? then Some(s.issued) else s.handle,
            if s.handle.None? then s.frames + {s.issued} else s.frames,
            if s.handle.None? then s.issued + 1 else s.issued,
            s.shown,
            s.kept[key := TextOf(s.kept, key) + text])
  }

  function FrameCleared(s: State): State {
    if s.handle.Some? then s.(handle := None, frames := s.frames - {s.handle.value}) else s
  }

  function Applied(s: State): State {
    s.(buffered := map[], shown := Append(s.shown, s.buffered))
  }

  function Drained(s: State, reaction: seq<Call>): State
    decreases reaction, 1
  {
    if s.buffered == map[] then s else AllDone(Applied(s), reaction)
  }

  function Cancelled(s: State): State {
    FrameCleared(s).(buffered := map[], kept := s.shown)
  }

  function Done(s: State, call: Call): State
    decreases call, 2
  {
    match call
    case Add(key, text) => Added(s, key, text)
    case FlushNow(reaction) => Drained(FrameCleared(s), reaction)
    case CancelPending => Cancelled(s)
  }

  function AllDone(s: State, calls: seq<Call>): State
    decreases calls, 0
  {
    if calls == [] then s else AllDone(Done(s, calls[0]), calls[1..])
  }

  /** The scheduler fires a frame. */
  function Fired(s: State, handle: nat, reaction: seq<Call>): State {
    Drained(s.(frames := s.frames - {handle}, handle := None), reaction)
  }

  /** Per key, what is shown and then what is buffered is what was added and not dropped. */
  ghost predicate Conserved(s: State) {
    forall k :: TextOf(s.shown, k) + TextOf(s.buffered, k) == TextOf(s.kept, k)
  }

  predicate NothingEmpty(buffered: Texts) {
    forall k :: k in buffered ==> buffered[k] != ""
  }

  /** A frame is pending exactly when text is, and then exactly one. */
  predicate OneFrame(s: State) {
    && (s.handle.Some? <==> s.buffered != map[])
    && s.frames == (if s.handle.Some? then {s.handle.value} else {})
    && (s.handle.Some? ==> s.handle.value < s.issued)
  }

  predicate IsValidFor(s: State, k: string) {
    && TextOf(s.shown, k) + TextOf(s.buffered, k) == TextOf(s.kept, k)
    && (k in s.buffered ==> s.buffered[k] != "")
    && OneFrame(s)
  }

  ghost predicate Valid(s: State) {
    forall k :: IsValidFor(s, k)
  }

  lemma ValidIs(s: State)
    ensures Valid(s) <==> Conserved(s) && NothingEmpty(s.buffered) && OneFrame(s)
  {
    if Valid(s) {
      assert IsValidFor(s, "");
      forall k ensures TextOf(s.shown, k) + TextOf(s.buffered, k) == TextOf(s.kept, k) && (k in s.buffered ==> s.buffered[k] != "")
      {
        assert IsValidFor(s, k);
      }
    }
  }

  /** Between the clearing of the frame and the drain. */
  ghost predicate ReadyToDrain(s: State) {
    Conserved(s) && NothingEmpty(s.buffered) && s.frames == {} && s.handle.None?
  }

  lemma AddKeepsValid(s: State, key: string, text: string)
    requires Valid(s)
    ensures Valid(Added(s, key, text))
  {
    var after := Added(s, key, text);
    ValidIs(s);
    ValidIs(after);
    if text != "" {
      assert key in after.buffered;
      forall k ensures TextOf(after.shown, k) + TextOf(after.buffered, k) == TextOf(after.kept, k) {
        assert TextOf(s.shown, k) + TextOf(s.buffered, k) == TextOf(s.kept, k);
        if k == key { assert TextOf(s.shown, k) + (TextOf(s.buffered, k) + text) == TextOf(s.kept, k) + text; }
      }
    }
  }

  lemma AppliedIsValid(s: State)
    requires ReadyToDrain(s)
    ensures Valid(Applied(s))
  {
    var after := Applied(s);
    ValidIs(after);
    forall k ensures TextOf(after.shown, k) + TextOf(after.buffered, k) == TextOf(after.kept, k) {
      assert TextOf(s.shown, k) + TextOf(s.buffered, k) == TextOf(s.kept, k);
      assert TextOf(after.shown, k) == TextOf(s.shown, k) + TextOf(s.buffered, k);
    }
  }

  lemma {:induction false} DrainKeepsValid(s: State, reaction: seq<Call>)
    requires ReadyToDrain(s)
    ensures Valid(Drained(s, reaction))
    decreases reaction, 1
  {
    hide Applied, Done;
    if s.buffered != map[] {
      AppliedIsValid(s);
      AllDoneKeepsValid(Applied(s), reaction);
    }
  }

  lemma {:induction false} CallKeepsValid(s: State, call: Call)
    requires Valid(s)
    ensures Valid(Done(s, call))
    decreases call, 2
  {
    ValidIs(s);
    match call
    case Add(key, text) => AddKeepsValid(s, key, text);
    case FlushNow(reaction) =>
      assert ReadyToDrain(FrameCleared(s));
      DrainKeepsValid(FrameCleared(s), reaction);
    case CancelPending =>
      var after := Cancelled(s);
      ValidIs(after);
      forall k ensures TextOf(after.shown, k) + TextOf(after.buffered, k) == TextOf(after.kept, k) {}
  }

  /** Every sequence of calls keeps the text and the one frame, calls made from inside an apply included. */
  lemma {:induction false} AllDoneKeepsValid(s: State, calls: seq<Call>)
    requires Valid(s)
    ensures Valid(AllDone(s, calls))
    decreases calls, 0
  {
    hide Valid, Done;
    if calls != [] {
      CallKeepsValid(s, calls[0]);
      AllDoneKeepsValid(Done(s, calls[0]), calls[1..]);
    }
  }

  // The page's life: calls from outside and frames as they fire.

  datatype Event = Called(call: Call) | Frame(reaction: seq<Call>)

  function Step(s: State, e: Event): State {
    match e
    case Called(call) => Done(s, call)
    case Frame(reaction) => if s.handle.Some? && s.handle.value in s.frames then Fired(s, s.handle.value, reaction) else s
  }

  function Run(events: seq<Event>): State {
    if events == [] then START else Step(Run(events[..|events| - 1]), events[|events| - 1])
  }

  /**
   * Over any run: per key, shown text followed by buffered text is what was added and not dropped, and one frame is
   * pending exactly while something is buffered.
   */
  lemma {:induction false} TextIsConserved(events: seq<Event>)
    ensures var s := Run(events);
      && (forall k :: TextOf(s.shown, k) + TextOf(s.buffered, k) == TextOf(s.kept, k))
      && (if exists k :: TextOf(s.buffered, k) != "" then s.handle.Some? && s.frames == {s.handle.value}
          else s.handle.None? && s.frames == {})
  {
    RunIsValid(events);
    var s := Run(events);
    ValidIs(s);
    if s.buffered != map[] {
      var k :| k in s.buffered;
      assert TextOf(s.buffered, k) != "";
    }
  }

  lemma {:induction false} RunIsValid(events: seq<Event>)
    ensures Valid(Run(events))
  {
    if events != [] {
      var before, e := Run(events[..|events| - 1]), events[|events| - 1];
      RunIsValid(events[..|events| - 1]);
      ValidIs(before);
      hide Conserved, NothingEmpty, Done;
      match e
      case Called(call) => CallKeepsValid(before, call);
      case Frame(reaction) =>
        if before.handle.Some? {
          DrainKeepsValid(before.(frames := before.frames - {before.handle.value}, handle := None), reaction);
        }
    }
  }

  // What was added.

  /** Neither the call nor anything its callbacks do is a cancel. */
  predicate CancelFree(call: Call)
    decreases call, 1
  {
    match call
    case Add(_, _) => true
    case FlushNow(reaction) => AllCancelFree(reaction)
    case CancelPending => false
  }

  predicate AllCancelFree(calls: seq<Call>)
    decreases calls, 0
  {
    calls == [] || (CancelFree(calls[0]) && AllCancelFree(calls[1..]))
  }

  predicate IsCancelFree(e: Event) {
    match e
    case Called(call) => CancelFree(call)
    case Frame(reaction) => AllCancelFree(reaction)
  }

  /** The text for a key that a call adds, in callbacks too; a callback runs only when there is a batch to apply. */
  function AddedByCall(s: State, call: Call, k: string): string
    decreases call, 2
  {
    match call
    case Add(key, text) => if key == k then text else ""
    case FlushNow(reaction) => AddedByDrain(FrameCleared(s), reaction, k)
    case CancelPending => ""
  }

  function AddedByDrain(s: State, reaction: seq<Call>, k: string): string
    decreases reaction, 1
  {
    if s.buffered == map[] then "" else AddedByAll(Applied(s), reaction, k)
  }

  function AddedByAll(s: State, calls: seq<Call>, k: string): string
    decreases calls, 0
  {
    if calls == [] then "" else AddedByCall(s, calls[0], k) + AddedByAll(Done(s, calls[0]), calls[1..], k)
  }

  function AddedByEvent(s: State, e: Event, k: string): string {
    match e
    case Called(call) => AddedByCall(s, call, k)
    case Frame(reaction) =>
      if s.handle.Some? && s.handle.value in s.frames
      then AddedByDrain(s.(frames := s.frames - {s.handle.value}, handle := None), reaction, k)
      else ""
  }

  function AddedText(events: seq<Event>, k: string): string {
    if events == [] then ""
    else
      AddedText(events[..|events| - 1], k) + AddedByEvent(Run(events[..|events| - 1]), events[|events| - 1], k)
  }

  lemma {:induction false} CallKeepsWhatItAdds(s: State, call: Call, k: string)
    requires CancelFree(call)
    ensures TextOf(Done(s, call).kept, k) == TextOf(s.kept, k) + AddedByCall(s, call, k)
    decreases call, 2
  {
    match call
    case Add(key, text) =>
    case FlushNow(reaction) => DrainKeepsWhatItAdds(FrameCleared(s), reaction, k);
  }

  lemma {:induction false} DrainKeepsWhatItAdds(s: State, reaction: seq<Call>, k: string)
    requires AllCancelFree(reaction)
    ensures TextOf(Drained(s, reaction).kept, k) == TextOf(s.kept, k) + AddedByDrain(s, reaction, k)
    decreases reaction, 1
  {
    if s.buffered != map[] { AllKeepWhatTheyAdd(Applied(s), reaction, k); }
  }

  lemma {:induction false} AllKeepWhatTheyAdd(s: State, calls: seq<Call>, k: string)
    requires AllCancelFree(calls)
    ensures TextOf(AllDone(s, calls).kept, k) == TextOf(s.kept, k) + AddedByAll(s, calls, k)
    decreases calls, 0
  {
    hide Done, TextOf;
    if calls != [] {
      CallKeepsWhatItAdds(s, calls[0], k);
      AllKeepWhatTheyAdd(Done(s, calls[0]), calls[1..], k);
    }
  }

  lemma {:induction false} KeptIsAdded(events: seq<Event>, k: string)
    requires forall e :: e in events ==> IsCancelFree(e)
    ensures TextOf(Run(events).kept, k) == AddedText(events, k)
  {
    if events != [] {
      var before, e := Run(events[..|events| - 1]), events[|events| - 1];
      KeptIsAdded(events[..|events| - 1], k);
      assert IsCancelFree(e) by { assert e in events; }
      hide TextOf, Done, Drained;
      match e
      case Called(call) => CallKeepsWhatItAdds(before, call, k);
      case Frame(reaction) =>
        if before.handle.Some? {
          DrainKeepsWhatItAdds(before.(frames := before.frames - {before.handle.value}, handle := None), reaction, k);
        }
    }
  }

  /**
   * Over any run in which nobody cancels, callbacks included: per key, shown text followed by buffered text is all that
   * was ever added, in the order it was added.
   */
  lemma NothingAddedIsLost(events: seq<Event>, k: string)
    requires forall e :: e in events ==> IsCancelFree(e)
    ensures TextOf(Run(events).shown, k) + TextOf(Run(events).buffered, k) == AddedText(events, k)
  {
    KeptIsAdded(events, k);
    TextIsConserved(events);
  }

  lemma {:induction false} ShownOnlyGrowsInCall(s: State, call: Call, k: string)
    ensures TextOf(s.shown, k) <= TextOf(Done(s, call).shown, k)
    decreases call, 2
  {
    if call.FlushNow? { ShownOnlyGrowsInDrain(FrameCleared(s), call.reaction, k); }
  }

  lemma {:induction false} ShownOnlyGrowsInDrain(s: State, reaction: seq<Call>, k: string)
    ensures TextOf(s.shown, k) <= TextOf(Drained(s, reaction).shown, k)
    ensures TextOf(s.shown, k) + TextOf(s.buffered, k) <= TextOf(Drained(s, reaction).shown, k)
    decreases reaction, 1
  {
    if s.buffered != map[] {
      assert TextOf(Applied(s).shown, k) == TextOf(s.shown, k) + TextOf(s.buffered, k);
      ShownOnlyGrows(Applied(s), reaction, k);
    }
  }

  lemma {:induction false} ShownOnlyGrows(s: State, calls: seq<Call>, k: string)
    ensures TextOf(s.shown, k) <= TextOf(AllDone(s, calls).shown, k)
    decreases calls, 0
  {
    hide Done, TextOf;
    if calls != [] {
      ShownOnlyGrowsInCall(s, calls[0], k);
      ShownOnlyGrows(Done(s, calls[0]), calls[1..], k);
    }
  }

  /**
   * When nobody has cancelled, flushing shows all text ever added, per key in the order it was added, however frames
   * fell and whatever callbacks added; what the last callback does comes behind it.
   */
  lemma FlushShowsAllThatWasAdded(events: seq<Event>, k: string, reaction: seq<Call>)
    requires forall e :: e in events ==> IsCancelFree(e)
    ensures AddedText(events, k) <= TextOf(Run(events + [Called(FlushNow(reaction))]).shown, k)
    ensures reaction == [] ==> TextOf(Run(events + [Called(FlushNow(reaction))]).shown, k) == AddedText(events, k)
  {
    var flush := Called(FlushNow(reaction));
    assert (events + [flush])[..|events|] == events;
    NothingAddedIsLost(events, k);
    var s := FrameCleared(Run(events));
    hide TextOf, Run;
    ShownOnlyGrowsInDrain(s, reaction, k);
    if reaction == [] { EmptyDrainShows(s, k); }
  }

  lemma EmptyDrainShows(s: State, k: string)
    ensures TextOf(Drained(s, []).shown, k) == TextOf(s.shown, k) + TextOf(s.buffered, k)
  {
    if s.buffered != map[] { assert Drained(s, []) == Applied(s); }
  }

  // The class.

  class StreamChunkBatcher {
    var buffered: Texts
    var handle: Option<nat>
    /** The scheduler: handles it will still fire, and how many it has given out. */
    var frames: set<nat>
    var issued: nat
    ghost var shown: Texts
    ghost var kept: Texts

    constructor ()
      ensures Abs() == START
    {
      buffered, handle, frames, issued, shown, kept := map[], None, {}, 0, map[], map[];
    }

    ghost function Abs(): State reads this {
      State(buffered, handle, frames, issued, shown, kept)
    }

    method Schedule() returns (h: nat)
      modifies this`frames, this`issued
      ensures h == old(issued) && issued == h + 1 && frames == old(frames) + {h}
    {
      h := issued;
      issued := issued + 1;
      frames := frames + {h};
    }

    method AddText(key: string, text: string)
      modifies this
      ensures Abs() == Added(old(Abs()), key, text)
    {
      if text == "" { return; }
      buffered := buffered[key := (if key in buffered then buffered[key] else "") + text];
      kept := kept[key := TextOf(kept, key) + text];
      if handle.None? {
        var h := Schedule();
        handle := Some(h);
      }
    }

    method ClearPendingFrame()
      modifies this
      ensures Abs() == FrameCleared(old(Abs()))
    {
      if handle.Some? {
        frames := frames - {handle.value};
        handle := None;
      }
    }

    /** Applies anything buffered right away. */
    method Flush(reaction: seq<Call>)
      modifies this
      ensures Abs() == Done(old(Abs()), FlushNow(reaction))
      decreases reaction, 2
    {
      ClearPendingFrame();
      Drain(reaction);
    }

    method Cancel()
      modifies this
      ensures Abs() == Cancelled(old(Abs()))
    {
      ClearPendingFrame();
      buffered := map[];
      kept := shown;
    }

    /** Empties the buffer before it applies the batch, so that text added by the callback starts a new one. */
    method Drain(reaction: seq<Call>)
      modifies this
      ensures Abs() == Drained(old(Abs()), reaction)
      decreases reaction, 1
    {
      if buffered == map[] { return; }
      var batch := buffered;
      buffered := map[];
      Callback(batch, reaction);
    }

    /** The page shows the batch and then does as it likes. */
    method Callback(batch: Texts, reaction: seq<Call>)
      modifies this
      ensures Abs() == AllDone(old(Abs()).(shown := Append(old(shown), batch)), reaction)
      decreases reaction, 0
    {
      shown := Append(shown, batch);
      var i := 0;
      ghost var start := Abs();
      while i < |reaction|
        invariant 0 <= i <= |reaction|
        invariant AllDone(start, reaction) == AllDone(Abs(), reaction[i..])
      {
        match reaction[i] {
          case Add(key, text) => AddText(key, text);
          case FlushNow(inner) => Flush(inner);
          case CancelPending => Cancel();
        }
        assert reaction[i..][1..] == reaction[i + 1..];
        i := i + 1;
      }
    }

    /** The scheduler's callback for a frame. */
    method OnFrame(h: nat, reaction: seq<Call>)
      requires h in frames
      modifies this
      ensures Abs() == Fired(old(Abs()), h, reaction)
    {
      frames := frames - {h};
      handle := None;
      Drain(reaction);
    }
  }
}
