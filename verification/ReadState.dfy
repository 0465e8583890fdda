/**
 * The read watermark, and unread conversations derived from it in two places: a flag in the list, computed from
 * times that have passed through the driver, and the badge set, computed inside the database.
 */
module ReadState {
  import opened Collections
  import opened Keyset
  import opened Options

  type Id = nat
  type Owner = nat

  datatype Message = Message(conversation: Id, sender: Owner, at: int)

  datatype Seat = Seat(conversation: Id, owner: Owner)

  datatype Reader = Reader(active: bool, lastReadAt: Option<int>)

  // Marking.

  function Marked(r: Reader, at: int): Reader {
    r.(lastReadAt := Some(Max(r.lastReadAt.GetOr(at), at)))
  }

  datatype MarkResult = MarkResult(lastReadAt: int, advanced: bool)

  class Watermarks {
    var readers: map<Seat, Reader>
    var messages: map<Id, Message>

    constructor (readers: map<Seat, Reader>, messages: map<Id, Message>)
      ensures this.readers == readers && this.messages == messages
    {
      this.readers, this.messages := readers, messages;
    }

    /**
     * One statement: reads the message's own time and the old watermark, writes the greater. The answer says
     * whether the watermark moved, and where it is now as the driver reads it.
     */
    method MarkRead(c: Id, o: Owner, m: Id) returns (result: Option<MarkResult>)
      modifies this`readers
      ensures result.Some? <==>
        Seat(c, o) in old(readers) && old(readers)[Seat(c, o)].active && m in messages && messages[m].conversation == c
      ensures result.None? ==> readers == old(readers)
      ensures result.Some? ==>
        var seat := Seat(c, o);
        && readers == old(readers)[seat := Marked(old(readers)[seat], messages[m].at)]
        && result.value.lastReadAt == FloorMs(readers[seat].lastReadAt.value)
        && (result.value.advanced <==> readers[seat] != old(readers)[seat])
    {
      var seat := Seat(c, o);
      if seat !in readers || !readers[seat].active || m !in messages || messages[m].conversation != c {
        return None;
      }
      var at := messages[m].at;
      var previous := readers[seat].lastReadAt;
      var mark := if previous.Some? && previous.value > at then previous.value else at;
      readers := readers[seat := readers[seat].(lastReadAt := Some(mark))];
      result := Some(MarkResult(FloorMs(mark), previous.None? || at > previous.value));
    }
  }

  /** The watermark after marks at these times, one after the other. */
  function MarkedAll(r: Reader, times: seq<int>): Reader {
    if times == [] then r else Marked(MarkedAll(r, times[..|times| - 1]), times[|times| - 1])
  }

  /** In whatever order tabs report, the watermark is the latest of the old one and the reported times. */
  lemma {:induction false} WatermarkIsTheLatest(r: Reader, times: seq<int>)
    ensures var w := MarkedAll(r, times).lastReadAt;
      && (w.None? <==> r.lastReadAt.None? && times == [])
      && (r.lastReadAt.Some? ==> r.lastReadAt.value <= w.value)
      && (forall t :: t in times ==> t <= w.value)
      && (w.Some? ==> w == r.lastReadAt || w.value in times)
  {
    if times != [] {
      WatermarkIsTheLatest(r, times[..|times| - 1]);
      assert times == times[..|times| - 1] + [times[|times| - 1]];
    }
  }

  /** Reports from stale tabs, and repeated ones, change nothing. */
  lemma {:induction false} LateReportsChangeNothing(r: Reader, times: seq<int>, more: seq<int>)
    requires forall t :: t in more ==> exists u :: u in times && t <= u
    ensures MarkedAll(r, times + more) == MarkedAll(r, times)
  {
    if more == [] {
      assert times + more == times;
    } else {
      var last := |more| - 1;
      assert forall t :: t in more[..last] ==> t in more;
      LateReportsChangeNothing(r, times, more[..last]);
      assert (times + more)[..|times| + last] == times + more[..last];
      WatermarkIsTheLatest(r, times);
      assert more[last] in more;
      var u :| u in times && more[last] <= u;
    }
  }

  // Unread, twice.

  /** A message no other of its conversation is later than; equal times may be listed either way. */
  predicate IsLast(messages: map<Id, Message>, c: Id, m: Id) {
    && m in messages && messages[m].conversation == c
    && forall n :: n in messages && messages[n].conversation == c ==> messages[n].at <= messages[m].at
  }

  /** The list's flag; both times have been truncated on their way out of the database. */
  function IsUnreadFor(o: Owner, lastReadAt: Option<int>, last: Option<Message>): bool {
    match last
    case None => false
    case Some(m) => m.sender != o && (lastReadAt.None? || FloorMs(m.at) > FloorMs(lastReadAt.value))
  }

  /** The badge query's WHERE clause. */
  function InBadge(o: Owner, r: Reader, last: Option<Message>): bool {
    r.active && last.Some? && last.value.sender != o && (r.lastReadAt.None? || last.value.at > r.lastReadAt.value)
  }

  /** Without a message nothing is unread; nor is one's own message, nor anything for who has left. */
  lemma NothingIsUnread(o: Owner, r: Reader, m: Message)
    ensures !IsUnreadFor(o, r.lastReadAt, None) && !InBadge(o, r, None)
    ensures m.sender == o ==> !IsUnreadFor(o, r.lastReadAt, Some(m)) && !InBadge(o, r, Some(m))
    ensures !r.active ==> !InBadge(o, r, Some(m))
  {
  }

  /** Someone else's message is unread until the watermark has reached it; for who has never read, always. */
  lemma OthersMessageIsUnread(o: Owner, r: Reader, m: Message)
    requires m.sender != o && r.active
    ensures r.lastReadAt == None ==> IsUnreadFor(o, r.lastReadAt, Some(m)) && InBadge(o, r, Some(m))
    ensures forall t :: r.lastReadAt == Some(t) ==>
      && (InBadge(o, r, Some(m)) <==> t < m.at)
      && (IsUnreadFor(o, r.lastReadAt, Some(m)) <==> FloorMs(t) < FloorMs(m.at))
  {
  }

  /** Same owner or not, and the same time: what ties between latest messages must agree on. */
  predicate SameForReader(o: Owner, m: Message, n: Message) {
    (m.sender == o <==> n.sender == o) && m.at == n.at
  }

  /**
   * A conversation flagged in a member's list is in the badge; one in the badge is flagged unless its last message
   * is newer than the watermark by microseconds within one millisecond.
   */
  lemma FlaggedIffInBadgeAndNotWithinAMillisecond(o: Owner, r: Reader, m: Message, n: Message)
    requires r.active && SameForReader(o, m, n)
    ensures IsUnreadFor(o, r.lastReadAt, Some(m)) ==> InBadge(o, r, Some(n))
    ensures InBadge(o, r, Some(n)) && !IsUnreadFor(o, r.lastReadAt, Some(m))
       <==> n.sender != o && r.lastReadAt.Some? && n.at > r.lastReadAt.value && FloorMs(n.at) == FloorMs(r.lastReadAt.value)
  {
    if r.lastReadAt.Some? {
      if r.lastReadAt.value <= m.at { FloorMsOrder(r.lastReadAt.value, m.at); } else { FloorMsOrder(m.at, r.lastReadAt.value); }
    }
  }

  lemma FloorMsOrder(a: int, b: int)
    requires a <= b
    ensures FloorMs(a) <= FloorMs(b) <= b
  {
  }

  /** On whole milliseconds the two always agree. */
  lemma FlaggedIffInBadge(o: Owner, r: Reader, m: Message, n: Message)
    requires r.active && SameForReader(o, m, n) && WholeMs(m.at) && (r.lastReadAt.Some? ==> WholeMs(r.lastReadAt.value))
    ensures IsUnreadFor(o, r.lastReadAt, Some(m)) <==> InBadge(o, r, Some(n))
  {
    FlaggedIffInBadgeAndNotWithinAMillisecond(o, r, m, n);
  }

  /** Marking any message of the conversation that no other is later than clears the flag and the badge. */
  lemma MarkingTheLastMessageClearsBoth(messages: map<Id, Message>, c: Id, o: Owner, r: Reader, marked: Id, shown: Id)
    requires IsLast(messages, c, marked) && IsLast(messages, c, shown)
    ensures var after := Marked(r, messages[marked].at);
      !IsUnreadFor(o, after.lastReadAt, Some(messages[shown])) && !InBadge(o, after, Some(messages[shown]))
  {
    assert messages[shown].at <= messages[marked].at;
    FloorMsOrder(messages[shown].at, Marked(r, messages[marked].at).lastReadAt.value);
  }

  /**
   * Why the mark is taken inside the statement: had its time come back through the driver, the badge of someone
   * else's last message would go out exactly when that time was whole milliseconds, or had been passed already.
   */
  lemma TruncatedMarkClearsBadgeIff(o: Owner, r: Reader, m: Message)
    requires r.active && m.sender != o
    ensures !InBadge(o, Marked(r, FloorMs(m.at)), Some(m))
       <==> WholeMs(m.at) || (r.lastReadAt.Some? && m.at <= r.lastReadAt.value)
  {
  }
}
