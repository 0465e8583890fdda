/**
 * The events list: numbered pages that hand over to a keyset cursor, and a capped total.
 *
 * A cursor carries the last row's timestamp as an ISO string, which has whole milliseconds only.
 */
module EventPaging {
  import opened Keyset
  import opened Options
  import opened EventFilter

  datatype Count = Count(total: nat, capped: bool)

  datatype Page = Page(data: seq<Key>, total: nat, totalCapped: bool, nextCursor: Option<Key>)

  /** COUNT(*) over a LIMIT cap + 1 subquery. */
  function CountCapped(matching: nat, cap: nat): Count {
    var counted := if matching < cap + 1 then matching else cap + 1;
    Count(if counted < cap then counted else cap, counted > cap)
  }

  function Filtered(rows: map<Key, Event>, f: Filter, read: Reading): set<Key> {
    set k | k in rows && Matches(f, read, k, rows[k])
  }

  /** What `toISOString` and back leaves of a row's key. */
  function CursorOf(k: Key): Key {
    Key(FloorMs(k.at), k.id)
  }

  function Candidates(order: Order, matching: set<Key>, after: Option<Key>): set<Key> {
    match after
    case None => matching
    case Some(cursor) => KeysAfter(order, matching, cursor)
  }

  datatype Fetch = Fetch(data: seq<Key>, next: Option<Key>)

  /** Reads one row past `limit`, which is only there to tell that another page follows. */
  function FetchFrom(ordered: seq<Key>, offset: nat, limit: nat): Fetch {
    var fetched := Slice(ordered, offset, limit + 1);
    var hasMore := |fetched| > limit;
    var data := if hasMore then fetched[..limit] else fetched;
    Fetch(data, if hasMore && data != [] then Some(CursorOf(data[|data| - 1])) else None)
  }

  /** One response, from the rows that match the filter. A cursor makes the offset irrelevant. */
  function PageOf(order: Order, matching: set<Key>, limit: nat, offset: nat, after: Option<Key>, cap: nat): Page {
    var ordered := Listing(order, Candidates(order, matching, after));
    var fetched := FetchFrom(ordered, if after.None? then offset else 0, limit);
    var counted := CountCapped(|matching|, cap);
    Page(fetched.data, counted.total, counted.capped, fetched.next)
  }

  class EventStore {
    var rows: map<Key, Event>

    constructor () ensures rows == map[] { rows := map[]; }

    function Select(conditions: seq<Condition>, values: seq<Value>): set<Key>
      reads this
    {
      set k | k in rows && AllHold(conditions, values, k, rows[k])
    }

    /** The row comparison on top of a clause keeps exactly the rows behind the cursor. */
    lemma CursorConjunct(conditions: seq<Condition>, values: seq<Value>, order: Order, cursor: Key)
      requires AllUseOnly(conditions, |values|)
      ensures Select(conditions + [PastCursor(order, |values| + 1, |values| + 2)], values + [Instant(cursor.at), Id(cursor.id)])
           == KeysAfter(order, Select(conditions, values), cursor)
    {
      var c := PastCursor(order, |values| + 1, |values| + 2);
      var more := [Instant(cursor.at), Id(cursor.id)];
      forall k | k in rows
        ensures AllHold(conditions + [c], values + more, k, rows[k])
           <==> AllHold(conditions, values, k, rows[k]) && Before(order, cursor, k)
      {
        LaterValuesKeepMeaning(conditions, values, more, k, rows[k]);
        assert (conditions + [c])[|conditions|] == c;
        assert forall i :: 0 <= i < |conditions| ==> (conditions + [c])[i] == conditions[i];
      }
    }

    /** Counts before the cursor joins the clause, then reads one row more than asked for. */
    method QueryEvents(f: Filter, read: Reading, order: Order, limit: nat, offset: nat, after: Option<Key>, cap: nat)
      returns (page: Page)
      ensures page == PageOf(order, Filtered(rows, f, read), limit, offset, after, cap)
    {
      var conditions, values, idx := BuildWhere(f, read);
      assert Select(conditions, values) == Filtered(rows, f, read);
      var counted := CountCapped(|Select(conditions, values)|, cap);
      var offsetClause := offset;
      if after.Some? {
        CursorConjunct(conditions, values, order, after.value);
        conditions := conditions + [PastCursor(order, idx, idx + 1)];
        values := values + [Instant(after.value.at), Id(after.value.id)];
        offsetClause := 0;
      }
      page := ReadPage(Listing(order, Select(conditions, values)), limit, offsetClause, counted);
    }

    method ReadPage(ordered: seq<Key>, limit: nat, offset: nat, counted: Count) returns (page: Page)
      ensures page == Page(FetchFrom(ordered, offset, limit).data, counted.total, counted.capped,
                           FetchFrom(ordered, offset, limit).next)
    {
      var fetched := Slice(ordered, offset, limit + 1);
      var hasMore := |fetched| > limit;
      var data := if hasMore then fetched[..limit] else fetched;
      var next: Option<Key> := None;
      if hasMore && |data| > 0 {
        next := Some(CursorOf(data[|data| - 1]));
      }
      page := Page(data, counted.total, counted.capped, next);
    }
  }

  /** The count stops at the ceiling and says so exactly when there is more. */
  lemma TotalIsMinimum(n: nat, cap: nat)
    ensures CountCapped(n, cap).total == (if n < cap then n else cap)
    ensures CountCapped(n, cap).capped <==> n > cap
  {
  }

  predicate AllWholeMs(keys: set<Key>) {
    forall k :: k in keys ==> WholeMs(k.at)
  }

  lemma FetchBehind(s: seq<Key>, i: nat, limit: nat)
    requires i <= |s|
    ensures FetchFrom(s[i..], 0, limit) == FetchFrom(s, i, limit)
  {
    assert Slice(s[i..], 0, limit + 1) == Slice(s, i, limit + 1);
  }

  /** Shape of one offset page. */
  lemma FetchShape(s: seq<Key>, offset: nat, limit: nat)
    requires offset <= |s| && limit > 0
    ensures FetchFrom(s, offset, limit).data == Slice(s, offset, limit)
    ensures FetchFrom(s, offset, limit).next
         == if offset + limit < |s| then Some(CursorOf(s[offset + limit - 1])) else None
  {
    if offset + limit < |s| {
      assert Slice(s, offset, limit + 1)[..limit] == s[offset..offset + limit] == Slice(s, offset, limit);
    }
  }

  lemma MoreMeansWithin(order: Order, matching: set<Key>, limit: nat, offset: nat, cap: nat)
    requires limit > 0
    ensures PageOf(order, matching, limit, offset, None, cap).nextCursor
         == if offset + limit < |matching| then Some(CursorOf(Listing(order, matching)[offset + limit - 1])) else None
  {
    var all := Listing(order, matching);
    if offset <= |all| {
      FetchShape(all, offset, limit);
    }
  }

  // The gap a cursor leaves.

  /** `k` lies between the cursor printed from `last` and `last`: repeated oldest first, skipped newest first. */
  predicate InGap(order: Order, last: Key, k: Key) {
    if order.Asc? then Lower(CursorOf(last), k) && !Lower(last, k) else !Lower(k, CursorOf(last)) && Lower(k, last)
  }

  predicate GapIsEmpty(order: Order, matching: set<Key>, last: Key) {
    forall k :: k in matching ==> !InGap(order, last, k)
  }

  /** Whole milliseconds leave no gap. */
  lemma WholeMsLeavesNoGap(order: Order, matching: set<Key>, last: Key)
    requires WholeMs(last.at)
    ensures GapIsEmpty(order, matching, last)
  {
    assert CursorOf(last) == last;
  }

  /**
   * Continuing after row `last` by its truncated cursor reads on exactly behind it if and only if no matching row lies
   * between the cursor and the row it was printed from.
   */
  lemma CursorResumesExactlyWhenGapIsEmpty(order: Order, matching: set<Key>, last: Key)
    ensures Candidates(order, matching, Some(CursorOf(last))) == KeysAfter(order, matching, last)
       <==> GapIsEmpty(order, matching, last)
  {
    var cursor := CursorOf(last);
    var resumed, rest := KeysAfter(order, matching, cursor), KeysAfter(order, matching, last);
    if resumed == rest {
      forall k | k in matching ensures !InGap(order, last, k) {
        assert k in resumed <==> k in rest;
      }
    } else {
      assert exists k :: k in resumed + rest && (k in resumed) != (k in rest);
    }
  }

  /** With an empty gap, the page after a row's cursor is the page at the offset behind that row. */
  lemma CursorPageIsOffsetPage(order: Order, matching: set<Key>, limit: nat, ignored: nat, i: nat, cap: nat)
    requires i < |matching| && GapIsEmpty(order, matching, Listing(order, matching)[i])
    ensures PageOf(order, matching, limit, ignored, Some(CursorOf(Listing(order, matching)[i])), cap)
         == PageOf(order, matching, limit, i + 1, None, cap)
  {
    var all := Listing(order, matching);
    CursorResumesExactlyWhenGapIsEmpty(order, matching, all[i]);
    ListingAfterRow(order, matching, i);
    FetchBehind(all, i + 1, limit);
  }

  lemma IndexFollowsOrder(order: Order, all: seq<Key>, i: nat, j: nat)
    requires Ordered(order, all) && i < |all| && j < |all| && Before(order, all[i], all[j])
    ensures i < j
  {
  }

  /** With a row in the gap, what comes first behind the cursor is not the next row. */
  lemma GapHidesTheNextRow(order: Order, matching: set<Key>, i: nat, first: Key)
    requires i + 1 < |matching| && !GapIsEmpty(order, matching, Listing(order, matching)[i])
    requires IsFirst(order, Candidates(order, matching, Some(CursorOf(Listing(order, matching)[i]))), first)
    ensures first != Listing(order, matching)[i + 1]
  {
    var all := Listing(order, matching);
    var last := all[i];
    ListingIsOrdered(order, matching);
    var k :| k in matching && InGap(order, last, k);
    var j :| 0 <= j < |all| && all[j] == k;
    hide Listing;
    assert Before(order, last, all[i + 1]);
    if order.Desc? {
      IndexFollowsOrder(order, all, i, j);
      assert j == i + 1 || Before(order, all[i + 1], all[j]);
    } else {
      assert first == k || Before(order, first, k);
    }
  }

  lemma CursorPageMissesTheNextRow(order: Order, matching: set<Key>, limit: nat, ignored: nat, i: nat, cap: nat)
    requires limit > 0 && i + 1 < |matching| && !GapIsEmpty(order, matching, Listing(order, matching)[i])
    ensures var page := PageOf(order, matching, limit, ignored, Some(CursorOf(Listing(order, matching)[i])), cap);
      if page.data == [] then page.nextCursor.None? else page.data[0] != Listing(order, matching)[i + 1]
  {
    var found := Candidates(order, matching, Some(CursorOf(Listing(order, matching)[i])));
    if found != {} {
      var first := First(order, found);
      GapHidesTheNextRow(order, matching, i, first);
      assert Listing(order, found)[0] == first;
    }
  }

  lemma OffsetPageShape(order: Order, matching: set<Key>, limit: nat, offset: nat, cap: nat)
    requires limit > 0 && offset < |matching|
    ensures var all, page := Listing(order, matching), PageOf(order, matching, limit, offset, None, cap);
      && page.data != [] && page.data[0] == all[offset]
      && (page.nextCursor.Some? <==> offset + limit < |all|)
      && (page.nextCursor.Some? ==>
            && page.data == all[offset..offset + limit] && page.data[|page.data| - 1] == all[offset + limit - 1]
            && page.nextCursor == Some(CursorOf(all[offset + limit - 1])))
  {
    MoreMeansWithin(order, matching, limit, offset, cap);
    FetchShape(Listing(order, matching), offset, limit);
    hide Listing, FetchFrom;
  }

  /** The cursor page that follows an offset page is the next offset page if and only if the gap is empty. */
  lemma CursorPageIsNextOffsetPageIff(order: Order, matching: set<Key>, limit: nat, offset: nat, ignored: nat, cap: nat)
    requires limit > 0 && PageOf(order, matching, limit, offset, None, cap).nextCursor.Some?
    ensures var page := PageOf(order, matching, limit, offset, None, cap);
      && page.data != []
      && (GapIsEmpty(order, matching, page.data[|page.data| - 1]) <==>
            PageOf(order, matching, limit, ignored, page.nextCursor, cap)
            == PageOf(order, matching, limit, offset + limit, None, cap))
  {
    var all, next := Listing(order, matching), offset + limit;
    MoreMeansWithin(order, matching, limit, offset, cap);
    OffsetPageShape(order, matching, limit, offset, cap);
    OffsetPageShape(order, matching, limit, next, cap);
    hide PageOf, Listing, GapIsEmpty;
    if GapIsEmpty(order, matching, all[next - 1]) {
      CursorPageIsOffsetPage(order, matching, limit, ignored, next - 1, cap);
    } else {
      CursorPageMissesTheNextRow(order, matching, limit, ignored, next - 1, cap);
    }
  }

  /**
   * Page one by offset or from the top, and every further page by the cursor of the one before; the offsets sent along
   * are arbitrary.
   */
  ghost predicate IsWalk(order: Order, matching: set<Key>, limit: nat, cap: nat, first: nat, pages: seq<Page>,
                         ignored: seq<nat>) {
    && |pages| == |ignored| + 1
    && pages[0] == PageOf(order, matching, limit, first, None, cap)
    && forall i :: 0 <= i < |ignored| ==> IsFollowedBy(order, matching, limit, cap, pages[i], ignored[i], pages[i + 1])
  }

  ghost predicate IsFollowedBy(order: Order, matching: set<Key>, limit: nat, cap: nat, page: Page, ignored: nat,
                               next: Page) {
    page.nextCursor.Some? && next == PageOf(order, matching, limit, ignored, page.nextCursor, cap)
  }

  /** No matching row lies in the gap behind any page of a walk but its last. */
  predicate GapsAreEmpty(order: Order, matching: set<Key>, pages: seq<Page>) {
    forall i :: 0 <= i < |pages| - 1 ==> GapBehindIsEmpty(order, matching, pages[i])
  }

  predicate GapBehindIsEmpty(order: Order, matching: set<Key>, page: Page) {
    page.data != [] ==> GapIsEmpty(order, matching, page.data[|page.data| - 1])
  }

  function AllData(pages: seq<Page>): seq<Key> {
    if pages == [] then [] else pages[0].data + AllData(pages[1..])
  }

  predicate SameTotal(page: Page, n: nat, cap: nat) {
    page.total == (if n < cap then n else cap) && (page.totalCapped <==> n > cap)
  }

  predicate IsNumberedPage(all: seq<Key>, page: Page, from: nat, limit: nat, cap: nat) {
    && page.data == Slice(all, from, limit)
    && (page.nextCursor.Some? <==> from + limit < |all|)
    && SameTotal(page, |all|, cap)
  }

  lemma NumberedPageShape(order: Order, matching: set<Key>, limit: nat, offset: nat, cap: nat)
    requires limit > 0
    ensures IsNumberedPage(Listing(order, matching), PageOf(order, matching, limit, offset, None, cap), offset, limit, cap)
  {
    MoreMeansWithin(order, matching, limit, offset, cap);
    if offset <= |matching| { FetchShape(Listing(order, matching), offset, limit); }
  }

  /** The first step of a walk. */
  lemma FirstStep(order: Order, matching: set<Key>, limit: nat, cap: nat, first: nat, page: Page, ignored: nat,
                  next: Page)
    requires limit > 0 && first <= |matching| && page == PageOf(order, matching, limit, first, None, cap)
    requires IsFollowedBy(order, matching, limit, cap, page, ignored, next)
    ensures first + limit < |matching| && page.data == Listing(order, matching)[first..first + limit]
    ensures GapBehindIsEmpty(order, matching, page) ==> next == PageOf(order, matching, limit, first + limit, None, cap)
    ensures !GapBehindIsEmpty(order, matching, page) ==>
      if next.data == [] then next.nextCursor.None? else next.data[0] != Listing(order, matching)[first + limit]
  {
    MoreMeansWithin(order, matching, limit, first, cap);
    OffsetPageShape(order, matching, limit, first, cap);
    hide PageOf, Listing, GapIsEmpty;
    if GapBehindIsEmpty(order, matching, page) {
      CursorPageIsNextOffsetPageIff(order, matching, limit, first, ignored, cap);
    } else {
      CursorPageMissesTheNextRow(order, matching, limit, ignored, first + limit - 1, cap);
    }
  }

  lemma GapsOfTail(order: Order, matching: set<Key>, pages: seq<Page>)
    requires |pages| > 1
    ensures GapsAreEmpty(order, matching, pages)
       <==> GapBehindIsEmpty(order, matching, pages[0]) && GapsAreEmpty(order, matching, pages[1..])
  {
    hide GapBehindIsEmpty;
    if GapBehindIsEmpty(order, matching, pages[0]) && GapsAreEmpty(order, matching, pages[1..]) {
      forall i | 0 <= i < |pages| - 1 ensures GapBehindIsEmpty(order, matching, pages[i]) {
        if i > 0 { assert GapBehindIsEmpty(order, matching, pages[1..][i - 1]); }
      }
    }
    if GapsAreEmpty(order, matching, pages) {
      forall i | 0 <= i < |pages| - 2 ensures GapBehindIsEmpty(order, matching, pages[1..][i]) {
        assert GapBehindIsEmpty(order, matching, pages[i + 1]);
      }
    }
  }

  lemma WalkTail(order: Order, matching: set<Key>, limit: nat, cap: nat, first: nat, pages: seq<Page>, ignored: seq<nat>)
    requires limit > 0 && first <= |matching| && ignored != []
    requires IsWalk(order, matching, limit, cap, first, pages, ignored)
    ensures first + limit < |matching| && pages[0].data == Listing(order, matching)[first..first + limit]
    ensures GapBehindIsEmpty(order, matching, pages[0]) ==>
      IsWalk(order, matching, limit, cap, first + limit, pages[1..], ignored[1..])
    ensures !GapBehindIsEmpty(order, matching, pages[0]) ==>
      if pages[1].data == [] then |pages| == 2 else pages[1].data[0] != Listing(order, matching)[first + limit]
  {
    hide PageOf, GapBehindIsEmpty, Listing;
    assert IsFollowedBy(order, matching, limit, cap, pages[0], ignored[0], pages[1]);
    FirstStep(order, matching, limit, cap, first, pages[0], ignored[0], pages[1]);
    forall i | 0 <= i < |ignored| - 1
      ensures IsFollowedBy(order, matching, limit, cap, pages[1..][i], ignored[1..][i], pages[1..][i + 1])
    {
      assert IsFollowedBy(order, matching, limit, cap, pages[i + 1], ignored[i + 1], pages[i + 2]);
    }
    if |pages| > 2 { assert IsFollowedBy(order, matching, limit, cap, pages[1], ignored[1], pages[2]); }
  }

  lemma PageThenRest(all: seq<Key>, first: nat, limit: nat, data: seq<Key>, rest: seq<Key>)
    requires first + limit < |all| && data == all[first..first + limit]
    ensures data + rest == all[first..] <==> rest == all[first + limit..]
    ensures data + rest <= all[first..] <==> rest <= all[first + limit..]
    ensures data + rest == all[first..] && rest != [] ==> rest[0] == all[first + limit]
    ensures data + rest == all[first..] ==> rest != []
  {
    assert all[first..] == data + all[first + limit..];
    assert (data + rest)[limit..] == rest;
    if data + rest <= all[first..] { assert all[first..][limit..] == all[first + limit..]; }
  }

  /** With no row in any gap, a walk has read a prefix, and everything exactly when it is finished. */
  lemma {:induction false} GapFreeWalkReads(order: Order, matching: set<Key>, limit: nat, cap: nat, first: nat,
                                            pages: seq<Page>, ignored: seq<nat>)
    requires limit > 0 && first <= |matching| && IsWalk(order, matching, limit, cap, first, pages, ignored)
    requires GapsAreEmpty(order, matching, pages)
    ensures AllData(pages) <= Listing(order, matching)[first..]
    ensures pages[|pages| - 1].nextCursor.None? <==> AllData(pages) == Listing(order, matching)[first..]
    decreases |pages|
  {
    hide PageOf, Listing, GapBehindIsEmpty;
    if ignored == [] {
      NumberedPageShape(order, matching, limit, first, cap);
      assert pages[1..] == [] && AllData(pages) == pages[0].data;
    } else {
      WalkTail(order, matching, limit, cap, first, pages, ignored);
      GapsOfTail(order, matching, pages);
      hide IsWalk, GapsAreEmpty;
      GapFreeWalkReads(order, matching, limit, cap, first + limit, pages[1..], ignored[1..]);
      PageThenRest(Listing(order, matching), first, limit, pages[0].data, AllData(pages[1..]));
    }
  }

  /** With a row in some gap, a walk does not read the listing. */
  lemma {:induction false} GapSpoilsTheWalk(order: Order, matching: set<Key>, limit: nat, cap: nat, first: nat,
                                            pages: seq<Page>, ignored: seq<nat>)
    requires limit > 0 && first <= |matching| && IsWalk(order, matching, limit, cap, first, pages, ignored)
    requires !GapsAreEmpty(order, matching, pages)
    ensures AllData(pages) != Listing(order, matching)[first..]
    decreases |pages|
  {
    hide PageOf, Listing, GapBehindIsEmpty;
    WalkTail(order, matching, limit, cap, first, pages, ignored);
    GapsOfTail(order, matching, pages);
    hide IsWalk, GapsAreEmpty;
    PageThenRest(Listing(order, matching), first, limit, pages[0].data, AllData(pages[1..]));
    if GapBehindIsEmpty(order, matching, pages[0]) {
      GapSpoilsTheWalk(order, matching, limit, cap, first + limit, pages[1..], ignored[1..]);
    } else {
      assert AllData(pages[1..]) == pages[1].data + AllData(pages[1..][1..]);
      if |pages| == 2 { assert pages[1..][1..] == []; }
    }
  }

  /**
   * Following `nextCursor` to its end, in either order and with any times, gives every matching row from the starting
   * offset on, once and in order, if and only if no matching row lies in the gap behind a page.
   */
  lemma FinishedWalkIsCompleteIff(order: Order, matching: set<Key>, limit: nat, cap: nat, first: nat,
                                  pages: seq<Page>, ignored: seq<nat>)
    requires limit > 0 && first <= |matching| && IsWalk(order, matching, limit, cap, first, pages, ignored)
    requires pages[|pages| - 1].nextCursor.None?
    ensures AllData(pages) == Listing(order, matching)[first..] <==> GapsAreEmpty(order, matching, pages)
  {
    hide IsWalk, GapsAreEmpty, Listing;
    if GapsAreEmpty(order, matching, pages) {
      GapFreeWalkReads(order, matching, limit, cap, first, pages, ignored);
    } else {
      GapSpoilsTheWalk(order, matching, limit, cap, first, pages, ignored);
    }
  }

  lemma CandidatesMatch(order: Order, matching: set<Key>, after: Option<Key>)
    ensures Candidates(order, matching, after) <= matching
  {
  }

  lemma PageIsOfMatching(order: Order, matching: set<Key>, limit: nat, offset: nat, after: Option<Key>, cap: nat)
    ensures var page := PageOf(order, matching, limit, offset, after, cap);
      (forall k :: k in page.data ==> k in matching) && SameTotal(page, |matching|, cap)
  {
    CandidatesMatch(order, matching, after);
    TotalIsMinimum(|matching|, cap);
    ListingIsOrdered(order, Candidates(order, matching, after));
    hide Listing, Candidates, Ordered, CountCapped;
    FetchIsPart(Listing(order, Candidates(order, matching, after)), if after.None? then offset else 0, limit);
    hide FetchFrom;
  }

  lemma FetchIsPart(s: seq<Key>, offset: nat, limit: nat)
    ensures forall k :: k in FetchFrom(s, offset, limit).data ==> k in s
  {
    SliceIsPart(s, offset, limit + 1);
    hide Slice;
  }

  lemma SliceIsPart(s: seq<Key>, offset: nat, limit: nat)
    ensures forall k :: k in Slice(s, offset, limit) ==> k in s
  {
  }

  lemma WalkIsOfMatching(order: Order, matching: set<Key>, limit: nat, cap: nat, first: nat, pages: seq<Page>,
                         ignored: seq<nat>, i: nat)
    requires IsWalk(order, matching, limit, cap, first, pages, ignored) && i < |pages|
    ensures (forall k :: k in pages[i].data ==> k in matching) && SameTotal(pages[i], |matching|, cap)
  {
    if i == 0 {
      PageIsOfMatching(order, matching, limit, first, None, cap);
    } else {
      assert IsFollowedBy(order, matching, limit, cap, pages[i - 1], ignored[i - 1], pages[i]);
      PageIsOfMatching(order, matching, limit, ignored[i - 1], pages[i - 1].nextCursor, cap);
    }
  }

  /**
   * With whole-millisecond times, following `nextCursor` to its end gives every matching row from the starting offset
   * on, once, in order; a walk that is not finished has read a proper prefix; and every page reports the same total.
   */
  lemma WalkListsEverything(order: Order, matching: set<Key>, limit: nat, cap: nat, first: nat,
                            pages: seq<Page>, ignored: seq<nat>)
    requires limit > 0 && AllWholeMs(matching) && first <= |matching|
    requires IsWalk(order, matching, limit, cap, first, pages, ignored)
    ensures AllData(pages) <= Listing(order, matching)[first..]
    ensures pages[|pages| - 1].nextCursor.None? <==> AllData(pages) == Listing(order, matching)[first..]
    ensures forall i :: 0 <= i < |pages| ==> SameTotal(pages[i], |matching|, cap)
  {
    hide IsWalk, GapIsEmpty, SameTotal, Listing, WholeMs;
    forall i | 0 <= i < |pages|
      ensures GapBehindIsEmpty(order, matching, pages[i]) && SameTotal(pages[i], |matching|, cap)
    {
      WalkIsOfMatching(order, matching, limit, cap, first, pages, ignored, i);
      if pages[i].data != [] { WholeMsLeavesNoGap(order, matching, pages[i].data[|pages[i].data| - 1]); }
    }
    GapFreeWalkReads(order, matching, limit, cap, first, pages, ignored);
  }

  /** Oldest first, a truncated cursor repeats its own row: the condition is whole milliseconds. */
  lemma AscendingCursorRepeatsItsRow(matching: set<Key>, last: Key)
    requires last in matching
    ensures last in Candidates(Asc, matching, Some(CursorOf(last))) <==> !WholeMs(last.at)
  {
  }

  /** Newest first, two events in one millisecond can lose the older one; the walk then ends one row short. */
  lemma SubMillisecondRowIsSkipped()
    ensures
      var newer, older := Key(5900, 1), Key(5400, 2);
      var one := PageOf(Desc, {newer, older}, 1, 0, None, 100);
      var two := PageOf(Desc, {newer, older}, 1, 0, one.nextCursor, 100);
      one.data == [newer] && two.data == [] && two.nextCursor.None?
  {
    var newer, older := Key(5900, 1), Key(5400, 2);
    var both := {newer, older};
    ListingIsOrdered(Desc, both);
    assert Ordered(Desc, [newer, older]);
    OrderedIsUnique(Desc, Listing(Desc, both), [newer, older]);
    assert KeysAfter(Desc, both, Key(5000, 1)) == {};
  }
}
