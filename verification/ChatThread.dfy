/**
 * Reading a chat thread backwards: the newest page first, then older pages by the id of the
 * oldest message shown. The anchor's time is read back from the table, so no digits are lost.
 */
module ChatThread {
  import opened Keyset
  import opened Options

  datatype Role = User | Assistant | Other

  /** Columns of a message other than its (created_at, id) key. */
  datatype Message = Message(conversation: nat, role: Role, content: string)

  datatype Page = Page(messages: seq<Key>, hasMore: bool)

  datatype Response = NotFound | Ok(page: Page)

  function Thread(messages: map<Key, Message>, conversation: nat): set<Key> {
    set k | k in messages && messages[k].conversation == conversation && !messages[k].role.Other?
  }

  /** What a thread shows: its conversation's messages by a user or the assistant, and no others. */
  lemma ThreadIs(messages: map<Key, Message>, conversation: nat, k: Key)
    ensures k in Thread(messages, conversation) <==>
      k in messages && messages[k].conversation == conversation && (messages[k].role == User || messages[k].role == Assistant)
  {
  }

  /** The newest `limit` of `visible`, oldest first. */
  function NewestPage(visible: set<Key>, limit: nat): Page {
    var newest := Slice(Listing(Desc, visible), 0, limit + 1);
    Page(Reverse(if |newest| > limit then newest[..limit] else newest), |newest| > limit)
  }

  class ChatDb {
    var owners: map<nat, string>
    var messages: map<Key, Message>

    constructor () { owners, messages := map[], map[]; }

    predicate IdsAreUnique() reads this {
      forall a, b :: a in messages && b in messages && a.id == b.id ==> a == b
    }

    function OlderThan(conversation: nat, anchor: Option<Key>): set<Key>
      reads this
    {
      match anchor
      case None => Thread(messages, conversation)
      case Some(k) => KeysAfter(Desc, Thread(messages, conversation), k)
    }

    /** A missing or foreign conversation, and a missing or foreign anchor, are both not found. */
    method ListMessages(conversation: nat, ownerId: string, limit: nat,
          beforeId: Option<nat>) returns (response: Response)
      requires IdsAreUnique() && limit > 0
      ensures conversation !in owners || owners[conversation] != ownerId ==> response.NotFound?
      ensures conversation in owners && owners[conversation] == ownerId ==>
                match beforeId
                case None => response == Ok(NewestPage(OlderThan(conversation, None), limit))
                case Some(id) =>
                  && (response.NotFound? <==> forall k :: k in messages && k.id == id ==> messages[k].conversation != conversation)
                  && (forall k :: k in messages && k.id == id && messages[k].conversation == conversation ==>
                        response == Ok(NewestPage(OlderThan(conversation, Some(k)), limit)))
    {
      if conversation !in owners || owners[conversation] != ownerId {
        return NotFound;
      }
      var anchor: Option<Key> := None;
      if beforeId.Some? {
        var found := set k | k in messages && k.id == beforeId.value;
        assert forall k :: k in messages && k.id == beforeId.value ==> k in found;
        if found == {} {
          return NotFound;
        }
        var k :| k in found;
        if messages[k].conversation != conversation {
          return NotFound;
        }
        anchor := Some(k);
      }
      var newest := Slice(Listing(Desc, OlderThan(conversation, anchor)), 0, limit + 1);
      var hasMore := |newest| > limit;
      if hasMore {
        newest := newest[..limit];
      }
      response := Ok(Page(Reverse(newest), hasMore));
    }
  }

  /** The newest page of what is visible, then each page asked for with the oldest message of the one before. */
  ghost predicate IsScrollBack(newest: set<Key> -> Page, older: Key -> set<Key>, visible: set<Key>, pages: seq<Page>)
    decreases |pages|
  {
    && pages != []
    && pages[0] == newest(visible)
    && (|pages| > 1 ==> && pages[0].hasMore && pages[0].messages != []
                        && IsScrollBack(newest, older, older(pages[0].messages[0]), pages[1..]))
  }

  function NewestOf(limit: nat): set<Key> -> Page {
    (visible: set<Key>) => NewestPage(visible, limit)
  }

  function OlderIn(thread: set<Key>): Key -> set<Key> {
    (anchor: Key) => KeysAfter(Desc, thread, anchor)
  }

  function Chronological(): set<Key> -> seq<Key> {
    (keys: set<Key>) => Listing(Asc, keys)
  }

  /** The client puts every older page in front. */
  function Shown(pages: seq<Page>): seq<Key> {
    if pages == [] then [] else Shown(pages[1..]) + pages[0].messages
  }

  lemma ReversedPrefix(newest: seq<Key>, limit: nat)
    requires limit <= |newest|
    ensures Reverse(newest[..limit]) == Reverse(newest)[|newest| - limit..]
  {
    assert newest == newest[..limit] + newest[limit..];
    ReverseOfSum(newest[..limit], newest[limit..]);
  }

  lemma SliceFromTop(s: seq<Key>, limit: nat)
    ensures |s| > limit ==> |Slice(s, 0, limit + 1)| == limit + 1 && Slice(s, 0, limit + 1)[..limit] == s[..limit]
    ensures |s| <= limit ==> Slice(s, 0, limit + 1) == s
  {
  }

  lemma NewestPageShape(visible: set<Key>, limit: nat)
    requires limit > 0
    ensures var page, all := NewestPage(visible, limit), Listing(Asc, visible);
      && page.hasMore == (|all| > limit)
      && page.messages == (if |all| > limit then all[|all| - limit..] else all)
  {
    ReversedListing(visible);
    SliceFromTop(Listing(Desc, visible), limit);
    if |visible| > limit {
      ReversedPrefix(Listing(Desc, visible), limit);
    }
  }

  /** What is older than the i-th oldest message is the listing up to it. */
  lemma OlderIsPrefix(thread: set<Key>, i: nat)
    requires i < |thread|
    ensures |KeysAfter(Desc, thread, Listing(Asc, thread)[i])| == i
    ensures Listing(Asc, KeysAfter(Desc, thread, Listing(Asc, thread)[i])) == Listing(Asc, thread)[..i]
  {
    var newest, all, j := Listing(Desc, thread), Listing(Asc, thread), |thread| - 1 - i;
    ReversedListing(thread);
    var older := KeysAfter(Desc, thread, all[i]);
    ListingAfterRow(Desc, thread, j);
    ReverseAt(newest);
    assert newest[j] == all[i];
    ReversedListing(older);
    assert newest == newest[..j + 1] + newest[j + 1..];
    ReverseOfSum(newest[..j + 1], newest[j + 1..]);
  }

  lemma PutInFront(all: seq<Key>, older: seq<Key>, page: seq<Key>, n: nat, limit: nat)
    requires |older| <= n - limit && n <= |all|
    requires older == all[n - limit - |older|..n - limit]
    requires limit <= n && page == all[n - limit..n]
    ensures older + page == all[n - |older + page|..n]
  {
  }

  /** A page of the `n` oldest messages ends at the n-th and starts `limit` before it, or at the first. */
  predicate EndsAt(all: seq<Key>, limit: nat, n: nat, page: Page)
    requires n <= |all|
  {
    && (page.hasMore <==> n > limit)
    && page.messages == (if n > limit then all[..n][n - limit..] else all[..n])
  }

  /** What is older than such a page are the `n - limit` oldest messages. */
  ghost predicate StepsBack(newest: set<Key> -> Page, older: Key -> set<Key>, listing: set<Key> -> seq<Key>,
                            all: seq<Key>, limit: nat, visible: set<Key>, n: nat) {
    n <= |all| && listing(visible) == all[..n] ==>
      && EndsAt(all, limit, n, newest(visible))
      && (n > limit > 0 ==> listing(older(all[n - limit])) == all[..n - limit])
  }

  lemma NewestEndsAt(all: seq<Key>, limit: nat, visible: set<Key>, n: nat)
    requires limit > 0 && n <= |all| && Listing(Asc, visible) == all[..n]
    ensures EndsAt(all, limit, n, NewestPage(visible, limit))
  {
    NewestPageShape(visible, limit);
  }

  lemma ThreadStepsBack(thread: set<Key>, limit: nat, visible: set<Key>, n: nat)
    requires limit > 0
    ensures StepsBack(NewestOf(limit), OlderIn(thread), Chronological(), Listing(Asc, thread), limit, visible, n)
  {
    hide Listing;
    if n <= |thread| && Listing(Asc, visible) == Listing(Asc, thread)[..n] {
      NewestEndsAt(Listing(Asc, thread), limit, visible, n);
      if n > limit {
        OlderIsPrefix(thread, n - limit);
      }
    }
  }

  lemma OnePageBack(newest: set<Key> -> Page, older: Key -> set<Key>, listing: set<Key> -> seq<Key>,
                    all: seq<Key>, limit: nat, visible: set<Key>, n: nat, page: Page)
    requires limit > 0 && n <= |all| && listing(visible) == all[..n] && page == newest(visible)
    requires StepsBack(newest, older, listing, all, limit, visible, n)
    ensures page.hasMore <==> n > limit
    ensures n <= limit ==> page.messages == all[..n]
    ensures n > limit ==> page.messages == all[n - limit..n] && listing(older(page.messages[0])) == all[..n - limit]
  {
    if n > limit { assert all[..n][n - limit..] == all[n - limit..n]; }
  }

  /** Scrolling back from the `n` oldest messages shows them in order, each once, and all of them at the end. */
  lemma {:induction false} ScrollBackReads(newest: set<Key> -> Page, older: Key -> set<Key>,
                                           listing: set<Key> -> seq<Key>, all: seq<Key>, limit: nat,
                                           visible: set<Key>, n: nat, pages: seq<Page>)
    requires limit > 0 && n <= |all| && listing(visible) == all[..n]
    requires forall v, m: nat :: StepsBack(newest, older, listing, all, limit, v, m)
    requires IsScrollBack(newest, older, visible, pages)
    ensures |Shown(pages)| <= n && Shown(pages) == all[n - |Shown(pages)|..n]
    ensures !pages[|pages| - 1].hasMore <==> |Shown(pages)| == n
    decreases |pages|
  {
    hide StepsBack, IsScrollBack, Shown;
    FirstPageBack(newest, older, visible, pages);
    var page, rest := pages[0], pages[1..];
    OnePageBack(newest, older, listing, all, limit, visible, n, page);
    if |pages| > 1 {
      ScrollBackReads(newest, older, listing, all, limit, older(page.messages[0]), n - limit, rest);
      PutInFront(all, Shown(rest), page.messages, n, limit);
    }
  }

  lemma FirstPageBack(newest: set<Key> -> Page, older: Key -> set<Key>, visible: set<Key>, pages: seq<Page>)
    requires IsScrollBack(newest, older, visible, pages)
    ensures pages != [] && pages[0] == newest(visible)
    ensures |pages| == 1 ==> Shown(pages) == pages[0].messages
    ensures |pages| > 1 ==>
      && pages[0].hasMore && pages[0].messages != []
      && IsScrollBack(newest, older, older(pages[0].messages[0]), pages[1..])
      && Shown(pages) == Shown(pages[1..]) + pages[0].messages
      && pages[1..][|pages| - 2] == pages[|pages| - 1]
  {
    if |pages| == 1 { assert pages[1..] == [] && [] + pages[0].messages == pages[0].messages; }
  }

  /**
   * From the newest page backwards the client shows the end of the thread in chronological order, each message
   * once, and the whole thread exactly when the last page has no more. Equal timestamps make no difference.
   */
  lemma ScrollBackShowsThread(messages: map<Key, Message>, conversation: nat, limit: nat, pages: seq<Page>)
    requires limit > 0
    requires IsScrollBack(NewestOf(limit), OlderIn(Thread(messages, conversation)), Thread(messages, conversation), pages)
    ensures var all := Listing(Asc, Thread(messages, conversation));
      && |Shown(pages)| <= |all| && Shown(pages) == all[|all| - |Shown(pages)|..]
      && (!pages[|pages| - 1].hasMore <==> Shown(pages) == all)
  {
    var thread := Thread(messages, conversation);
    var all := Listing(Asc, thread);
    forall v, m: nat ensures StepsBack(NewestOf(limit), OlderIn(thread), Chronological(), all, limit, v, m) {
      ThreadStepsBack(thread, limit, v, m);
    }
    assert all == all[..|all|];
    ScrollBackReads(NewestOf(limit), OlderIn(thread), Chronological(), all, limit, thread, |all|, pages);
  }
}
