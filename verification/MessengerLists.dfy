/**
 * The messenger's two paged lists: conversations by last activity, and a thread's messages.
 */
module MessengerLists {
  import opened Collections
  import opened EventPaging
  import opened Keyset
  import opened Options

  // Conversations: a (time, id) cursor, sent when the page is full.

  function ConversationPage(mine: set<Key>, limit: nat, after: Option<Key>): seq<Key> {
    Slice(Listing(Desc, Candidates(Desc, mine, after)), 0, limit)
  }

  function NextCursor(page: seq<Key>, limit: nat): Option<Key> {
    if |page| == limit && page != [] then Some(CursorOf(page[|page| - 1])) else None
  }

  lemma PageIsOfCandidates(mine: set<Key>, limit: nat, after: Option<Key>)
    ensures forall k :: k in ConversationPage(mine, limit, after) ==> k in Candidates(Desc, mine, after)
    ensures Ordered(Desc, ConversationPage(mine, limit, after))
  {
    ListingIsOrdered(Desc, Candidates(Desc, mine, after));
  }

  /** What a cursor printed from a row of this page leaves is behind that row. */
  lemma CandidatesNest(mine: set<Key>, after: Option<Key>, last: Key)
    requires last in Candidates(Desc, mine, after)
    ensures var rest := Candidates(Desc, mine, Some(CursorOf(last)));
      rest <= Candidates(Desc, mine, after) && last !in rest && forall k :: k in rest ==> Before(Desc, last, k)
  {
  }

  lemma CandidatesShrink(mine: set<Key>, limit: nat, after: Option<Key>)
    requires NextCursor(ConversationPage(mine, limit, after), limit).Some?
    ensures var next := NextCursor(ConversationPage(mine, limit, after), limit);
      |Candidates(Desc, mine, next)| < |Candidates(Desc, mine, after)|
  {
    var page := ConversationPage(mine, limit, after);
    PageIsOfCandidates(mine, limit, after);
    var last := page[|page| - 1];
    CandidatesNest(mine, after, last);
    var now, rest := Candidates(Desc, mine, after), Candidates(Desc, mine, Some(CursorOf(last)));
    CountOfSubset(rest, now - {last});
  }

  /** What a client that follows the cursor to its end has read; it always gets there. */
  function Walk(mine: set<Key>, limit: nat, after: Option<Key>): seq<Key>
    decreases |Candidates(Desc, mine, after)|
  {
    var page := ConversationPage(mine, limit, after);
    var next := NextCursor(page, limit);
    if next.None? then page
    else
      CandidatesShrink(mine, limit, after);
      page + Walk(mine, limit, next)
  }

  /** With an empty gap, the next page's candidates are listed exactly behind this page. */
  lemma PageContinues(mine: set<Key>, limit: nat, after: Option<Key>)
    requires limit > 0 && NextCursor(ConversationPage(mine, limit, after), limit).Some?
    requires GapIsEmpty(Desc, mine, ConversationPage(mine, limit, after)[limit - 1])
    ensures var all, page := Listing(Desc, Candidates(Desc, mine, after)), ConversationPage(mine, limit, after);
      all == page + Listing(Desc, Candidates(Desc, mine, NextCursor(page, limit)))
  {
    hide Listing, KeysAfter, GapIsEmpty, CursorOf;
    var now := Candidates(Desc, mine, after);
    var all := Listing(Desc, now);
    var last := all[limit - 1];
    assert ConversationPage(mine, limit, after) == all[..limit];
    assert last in now by { ListingIsOrdered(Desc, now); }
    CursorResumesExactlyWhenGapIsEmpty(Desc, mine, last);
    assert Candidates(Desc, mine, Some(CursorOf(last))) == KeysAfter(Desc, now, last) by {
      if after.Some? { BehindBoth(mine, after.value, last); }
    }
    ListingAfterRow(Desc, now, limit - 1);
  }

  lemma BehindBoth(mine: set<Key>, first: Key, second: Key)
    requires second in KeysAfter(Desc, mine, first)
    ensures KeysAfter(Desc, KeysAfter(Desc, mine, first), second) == KeysAfter(Desc, mine, second)
  {
  }

  /** Whatever the times, no conversation is listed twice and nothing foreign is listed. */
  lemma {:induction false} WalkNeverRepeats(mine: set<Key>, limit: nat, after: Option<Key>)
    ensures Ordered(Desc, Walk(mine, limit, after))
    ensures forall k :: k in Walk(mine, limit, after) ==> k in Candidates(Desc, mine, after)
    decreases |Candidates(Desc, mine, after)|
  {
    var page := ConversationPage(mine, limit, after);
    var next := NextCursor(page, limit);
    PageIsOfCandidates(mine, limit, after);
    if next.Some? {
      CandidatesShrink(mine, limit, after);
      WalkNeverRepeats(mine, limit, next);
      var rest, last := Walk(mine, limit, next), page[|page| - 1];
      CandidatesNest(mine, after, last);
      forall i, j | 0 <= i < |page| && 0 <= j < |rest|
        ensures Before(Desc, page[i], rest[j])
      {
        assert rest[j] in Candidates(Desc, mine, next);
        assert i == |page| - 1 || Before(Desc, page[i], last);
      }
    }
  }

  /** No conversation of the list lies in the gap behind a page of the walk. */
  ghost predicate NoGapHidesOne(mine: set<Key>, limit: nat, after: Option<Key>)
    decreases |Candidates(Desc, mine, after)|
  {
    var page := ConversationPage(mine, limit, after);
    var next := NextCursor(page, limit);
    next.Some? ==>
      && GapIsEmpty(Desc, mine, page[|page| - 1])
      && (CandidatesShrink(mine, limit, after); NoGapHidesOne(mine, limit, next))
  }

  /** A conversation in the gap is never listed. */
  lemma GapHidesOne(mine: set<Key>, limit: nat, after: Option<Key>, k: Key)
    requires NextCursor(ConversationPage(mine, limit, after), limit).Some? && k in mine
    requires InGap(Desc, ConversationPage(mine, limit, after)[|ConversationPage(mine, limit, after)| - 1], k)
    ensures k in Candidates(Desc, mine, after) && k !in Walk(mine, limit, after)
  {
    var page := ConversationPage(mine, limit, after);
    var next, last := NextCursor(page, limit), page[|page| - 1];
    PageIsOfCandidates(mine, limit, after);
    WalkNeverRepeats(mine, limit, next);
    CandidatesShrink(mine, limit, after);
    assert Walk(mine, limit, after) == page + Walk(mine, limit, next);
    hide ConversationPage, Walk;
    assert last in page && last in Candidates(Desc, mine, after);
    assert k in Candidates(Desc, mine, after);
    forall i | 0 <= i < |page| ensures page[i] != k {
      assert page[i] == last || Before(Desc, page[i], last);
    }
    assert k !in Candidates(Desc, mine, next);
  }

  lemma PrefixCancels(page: seq<Key>, a: seq<Key>, b: seq<Key>)
    ensures page + a == page + b <==> a == b
  {
    if page + a == page + b { assert a == (page + a)[|page|..] == b; }
  }

  /**
   * With any times and any page size, every conversation is listed once and in order if and only if none lies in the
   * gap behind a page.
   */
  lemma {:induction false} WalkIsCompleteIff(mine: set<Key>, limit: nat, after: Option<Key>)
    requires limit > 0
    ensures Walk(mine, limit, after) == Listing(Desc, Candidates(Desc, mine, after)) <==> NoGapHidesOne(mine, limit, after)
    decreases |Candidates(Desc, mine, after)|
  {
    var page := ConversationPage(mine, limit, after);
    var next := NextCursor(page, limit);
    if next.Some? {
      CandidatesShrink(mine, limit, after);
      if GapIsEmpty(Desc, mine, page[limit - 1]) {
        PageContinues(mine, limit, after);
        hide Candidates, NextCursor, ConversationPage, Listing, GapIsEmpty;
        WalkIsCompleteIff(mine, limit, next);
        PrefixCancels(page, Walk(mine, limit, next), Listing(Desc, Candidates(Desc, mine, next)));
      } else {
        var k :| k in mine && InGap(Desc, page[limit - 1], k);
        GapHidesOne(mine, limit, after, k);
        ListingIsOrdered(Desc, Candidates(Desc, mine, after));
        hide Candidates, ConversationPage, Listing, Walk;
      }
    }
  }

  lemma {:induction false} WholeMsHidesNone(mine: set<Key>, limit: nat, after: Option<Key>)
    requires AllWholeMs(mine)
    ensures NoGapHidesOne(mine, limit, after)
    decreases |Candidates(Desc, mine, after)|
  {
    var page := ConversationPage(mine, limit, after);
    var next := NextCursor(page, limit);
    if next.Some? {
      PageIsOfCandidates(mine, limit, after);
      assert page[|page| - 1] in page;
      WholeMsLeavesNoGap(Desc, mine, page[|page| - 1]);
      CandidatesShrink(mine, limit, after);
      WholeMsHidesNone(mine, limit, next);
    }
  }

  /** With whole-millisecond times, every conversation is listed, once and in order, for every page size. */
  lemma WalkListsAllConversations(mine: set<Key>, limit: nat, after: Option<Key>)
    requires limit > 0 && AllWholeMs(mine)
    ensures Walk(mine, limit, after) == Listing(Desc, Candidates(Desc, mine, after))
  {
    WholeMsHidesNone(mine, limit, after);
    WalkIsCompleteIff(mine, limit, after);
  }

  /** Two conversations active within one millisecond: a page of one shows the newer and the walk ends. */
  lemma SubMillisecondConversationIsSkipped()
    ensures Walk({Key(5900, 1), Key(5400, 2)}, 1, None) == [Key(5900, 1)]
  {
    var newer, older := Key(5900, 1), Key(5400, 2);
    var both := {newer, older};
    ListingIsOrdered(Desc, both);
    assert Ordered(Desc, [newer, older]);
    OrderedIsUnique(Desc, Listing(Desc, both), [newer, older]);
    assert ConversationPage(both, 1, None) == [newer];
    assert Candidates(Desc, both, Some(Key(5000, 1))) == {};
    assert ConversationPage(both, 1, Some(Key(5000, 1))) == [];
  }

  // Messages: newest first, a time-only cursor, sent when the page is full.

  function Older(messages: set<Key>, before: Option<int>): set<Key> {
    set m | m in messages && (before.None? || m.at < before.value)
  }

  function SetOf(page: seq<Key>): set<Key> {
    set m | m in page
  }

  /** A page the ORDER BY allows: messages of equal time may come in any order. */
  ghost predicate IsPage(older: set<Key>, limit: nat, page: seq<Key>) {
    && SetOf(page) <= older
    && (forall i, j :: 0 <= i < j < |page| ==> page[i] != page[j] && page[i].at >= page[j].at)
    && (forall m, i :: m in older && m !in page && 0 <= i < |page| ==> m.at <= page[i].at)
    && (if |older| <= limit then SetOf(page) == older else |page| == limit)
  }

  function OlderThan(page: seq<Key>): Option<int>
    requires page != []
  {
    Some(FloorMs(page[|page| - 1].at))
  }

  /**
   * After a full page the next one continues exactly behind it if and only if no message left over was sent in the
   * same millisecond as the last one shown; those that were are never shown.
   */
  lemma OlderPageContinuesIff(messages: set<Key>, before: Option<int>, limit: nat, page: seq<Key>)
    requires IsPage(Older(messages, before), limit, page) && page != []
    ensures var left := Older(messages, before) - SetOf(page);
      Older(messages, OlderThan(page)) == left
      <==> forall m :: m in left ==> FloorMs(m.at) != FloorMs(page[|page| - 1].at)
  {
    var left, next, last := Older(messages, before) - SetOf(page), Older(messages, OlderThan(page)), page[|page| - 1];
    assert last in page && last in SetOf(page);
    forall m | m in page ensures m.at >= last.at {
      var i :| 0 <= i < |page| && page[i] == m;
      assert page[i].at >= last.at;
    }
    assert FloorMs(last.at) <= last.at;
    assert forall m :: m in next ==> m in Older(messages, before) && m !in page;
    forall m | m in left ensures m in next <==> FloorMs(m.at) != FloorMs(last.at) {
      assert m.at <= page[|page| - 1].at;
      MillisecondsApart(m.at, last.at);
    }
  }

  lemma MillisecondsApart(a: int, b: int)
    requires a <= b
    ensures a < FloorMs(b) <==> FloorMs(a) != FloorMs(b)
  {
  }

  ghost predicate IsWalkBack(messages: set<Key>, before: Option<int>, limit: nat, pages: seq<seq<Key>>)
    decreases |pages|
  {
    pages != [] && IsPage(Older(messages, before), limit, pages[0])
    && if |pages[0]| == limit && limit > 0 then IsWalkBack(messages, OlderThan(pages[0]), limit, pages[1..]) else |pages| == 1
  }

  function Concat(pages: seq<seq<Key>>): seq<Key> {
    if pages == [] then [] else pages[0] + Concat(pages[1..])
  }

  /** The messages left over behind a page were not sent in the millisecond of its last. */
  ghost predicate LeavesMilliseconds(messages: set<Key>, before: Option<int>, page: seq<Key>) {
    page != [] ==>
      forall m :: m in Older(messages, before) - SetOf(page) ==> FloorMs(m.at) != FloorMs(page[|page| - 1].at)
  }

  /** No page of the walk but its last splits a millisecond. */
  ghost predicate NoMillisecondIsSplit(messages: set<Key>, before: Option<int>, pages: seq<seq<Key>>)
    decreases |pages|
  {
    |pages| > 1 && pages[0] != [] ==>
      LeavesMilliseconds(messages, before, pages[0]) && NoMillisecondIsSplit(messages, OlderThan(pages[0]), pages[1..])
  }

  lemma SetOfSum(page: seq<Key>, rest: seq<Key>)
    ensures SetOf(page + rest) == SetOf(page) + SetOf(rest)
  {
  }

  lemma OlderNests(messages: set<Key>, before: Option<int>, limit: nat, page: seq<Key>)
    requires IsPage(Older(messages, before), limit, page) && page != []
    ensures SetOf(page) <= Older(messages, before)
    ensures Older(messages, OlderThan(page)) <= Older(messages, before) - SetOf(page)
  {
    var last := page[|page| - 1];
    assert last in SetOf(page);
    forall m | m in SetOf(page) ensures m.at >= last.at && m !in Older(messages, OlderThan(page)) {
      var i :| 0 <= i < |page| && page[i] == m;
      assert page[i].at >= last.at;
    }
  }

  lemma {:induction false} WalkBackShowsOnlyTheThread(messages: set<Key>, before: Option<int>, limit: nat,
        pages: seq<seq<Key>>)
    requires limit > 0 && IsWalkBack(messages, before, limit, pages)
    ensures SetOf(Concat(pages)) <= Older(messages, before)
    decreases |pages|
  {
    SetOfSum(pages[0], Concat(pages[1..]));
    if |pages[0]| == limit {
      OlderNests(messages, before, limit, pages[0]);
      hide Older, IsPage, SetOf;
      WalkBackShowsOnlyTheThread(messages, OlderThan(pages[0]), limit, pages[1..]);
    }
  }

  lemma SumIsWholeIff(all: set<Key>, shown: set<Key>, rest: set<Key>, next: set<Key>)
    requires shown <= all && next <= all - shown && rest <= next
    ensures shown + rest == all <==> next == all - shown && rest == next
  {
    if shown + rest == all {
      forall k | k in all - shown ensures k in rest {
        assert k in shown + rest;
      }
    }
  }

  lemma SplitPagesLose(messages: set<Key>, before: Option<int>, limit: nat, page: seq<Key>, rest: seq<Key>)
    requires IsPage(Older(messages, before), limit, page) && page != []
    requires SetOf(rest) <= Older(messages, OlderThan(page))
    ensures SetOf(page + rest) == Older(messages, before) <==>
      LeavesMilliseconds(messages, before, page) && SetOf(rest) == Older(messages, OlderThan(page))
  {
    SetOfSum(page, rest);
    OlderNests(messages, before, limit, page);
    OlderPageContinuesIff(messages, before, limit, page);
    SumIsWholeIff(Older(messages, before), SetOf(page), SetOf(rest), Older(messages, OlderThan(page)));
    hide Older, IsPage, FloorMs, SetOf;
  }

  /**
   * Whatever the times, paging back to the end shows the whole thread if and only if no page but the last leaves over a
   * message of its last message's millisecond.
   */
  lemma {:induction false} WalkBackIsCompleteIff(messages: set<Key>, before: Option<int>, limit: nat,
        pages: seq<seq<Key>>)
    requires limit > 0 && IsWalkBack(messages, before, limit, pages)
    ensures SetOf(Concat(pages)) == Older(messages, before) <==> NoMillisecondIsSplit(messages, before, pages)
    decreases |pages|
  {
    hide Older, LeavesMilliseconds;
    var page, rest := pages[0], pages[1..];
    if |page| == limit {
      WalkBackShowsOnlyTheThread(messages, OlderThan(page), limit, rest);
      SplitPagesLose(messages, before, limit, page, Concat(rest));
      hide IsPage, SetOf;
      WalkBackIsCompleteIff(messages, OlderThan(page), limit, rest);
    } else {
      assert rest == [] && Concat(pages) == page;
      assert |Older(messages, before)| <= limit;
    }
  }

  predicate MillisecondsDiffer(messages: set<Key>) {
    forall m, n :: m in messages && n in messages && m != n ==> FloorMs(m.at) != FloorMs(n.at)
  }

  predicate NewestFirst(s: seq<Key>) {
    forall i, j :: 0 <= i < j < |s| ==> s[i].at > s[j].at
  }

  lemma PageIsNewestFirst(older: set<Key>, limit: nat, page: seq<Key>)
    requires IsPage(older, limit, page) && MillisecondsDiffer(older)
    ensures NewestFirst(page)
  {
    forall i, j | 0 <= i < j < |page| ensures page[i].at > page[j].at {
      assert page[i] in SetOf(page) && page[j] in SetOf(page);
    }
  }

  lemma PageThenRest(page: seq<Key>, rest: seq<Key>)
    requires page != [] && NewestFirst(page) && NewestFirst(rest)
    requires forall m :: m in SetOf(rest) ==> m.at < page[|page| - 1].at
    ensures NewestFirst(page + rest) && SetOf(page + rest) == SetOf(page) + SetOf(rest)
  {
    forall i, j | 0 <= i < |page| && 0 <= j < |rest| ensures page[i].at > rest[j].at {
      assert rest[j] in SetOf(rest);
    }
  }

  lemma FullPageContinues(messages: set<Key>, before: Option<int>, limit: nat, page: seq<Key>)
    requires limit > 0 && MillisecondsDiffer(messages) && IsPage(Older(messages, before), limit, page) && |page| == limit
    ensures Older(messages, before) == SetOf(page) + Older(messages, OlderThan(page))
    ensures forall m :: m in Older(messages, OlderThan(page)) ==> m.at < page[|page| - 1].at
  {
    var last := page[|page| - 1];
    assert last in SetOf(page);
    assert forall m :: m in Older(messages, before) - SetOf(page) ==> FloorMs(m.at) != FloorMs(last.at);
    OlderPageContinuesIff(messages, before, limit, page);
    assert FloorMs(last.at) <= last.at;
  }

  /** When no two messages share a millisecond, paging back to the end shows the whole thread, newest first. */
  lemma {:induction false} WalkBackShowsTheThread(messages: set<Key>, before: Option<int>, limit: nat,
        pages: seq<seq<Key>>)
    requires limit > 0 && MillisecondsDiffer(messages) && IsWalkBack(messages, before, limit, pages)
    ensures SetOf(Concat(pages)) == Older(messages, before) && NewestFirst(Concat(pages))
    decreases |pages|
  {
    var page := pages[0];
    assert MillisecondsDiffer(Older(messages, before));
    PageIsNewestFirst(Older(messages, before), limit, page);
    if |page| == limit {
      FullPageContinues(messages, before, limit, page);
      hide FloorMs, IsPage, MillisecondsDiffer, SetOf, NewestFirst;
      WalkBackShowsTheThread(messages, OlderThan(page), limit, pages[1..]);
      hide Older;
      PageThenRest(page, Concat(pages[1..]));
    } else {
      assert pages[1..] == [] && Concat(pages) == page;
      assert |Older(messages, before)| <= limit;
    }
  }

  /** Two messages of one millisecond: paging back one at a time shows the newer one only. */
  lemma MessageOfOneMillisecondIsLost()
    ensures IsWalkBack({Key(5900, 1), Key(5400, 2)}, None, 1, [[Key(5900, 1)], []])
    ensures Concat([[Key(5900, 1)], []]) == [Key(5900, 1)]
  {
    var newer, older := Key(5900, 1), Key(5400, 2);
    var both := {newer, older};
    assert Older(both, None) == both && Older(both, Some(5000)) == {};
    assert SetOf([newer]) == {newer};
    assert [[newer], []][1..] == [[]];
    assert SetOf([]) == {};
    assert IsWalkBack(both, Some(5000), 1, [[]]);
  }
}
