/**
 * Rows identified by (time, id) and read in that order.
 *
 * Times are whole microseconds. The Postgres driver and JavaScript dates keep only
 * milliseconds, so a time that has passed through either is `FloorMs` of the stored one.
 */
module Keyset {
  import opened Options

  const MICROS_PER_MS := 1000

  function FloorMs(t: int): int {
    t - t % MICROS_PER_MS
  }

  /** The last whole thousand of microseconds that is not after the time. */
  lemma FloorMsIsTheLastMillisecond(t: int)
    ensures FloorMs(t) <= t < FloorMs(t) + 1000 && exists n :: FloorMs(t) == 1000 * n
    ensures WholeMs(t) <==> FloorMs(t) == t
  {
    assert FloorMs(t) == 1000 * (t / 1000);
  }

  predicate WholeMs(t: int) {
    t % MICROS_PER_MS == 0
  }

  datatype Key = Key(at: int, id: nat)

  datatype Order = Asc | Desc

  predicate Lower(a: Key, b: Key) {
    a.at < b.at || (a.at == b.at && a.id < b.id)
  }

  /** `a` is read before `b`. */
  predicate Before(order: Order, a: Key, b: Key) {
    if order.Asc? then Lower(a, b) else Lower(b, a)
  }

  predicate IsFirst(order: Order, keys: set<Key>, first: Key) {
    first in keys && forall k :: k in keys && k != first ==> Before(order, first, k)
  }

  lemma {:induction false} FirstExists(order: Order, keys: set<Key>)
    requires keys != {}
    ensures exists k :: IsFirst(order, keys, k)
  {
    var some :| some in keys;
    var rest := keys - {some};
    assert keys == rest + {some};
    if rest == {} {
      assert IsFirst(order, keys, some);
    } else {
      FirstExists(order, rest);
      var best :| IsFirst(order, rest, best);
      if Before(order, some, best) {
        assert IsFirst(order, keys, some);
      } else {
        assert IsFirst(order, keys, best);
      }
    }
  }

  predicate Ordered(order: Order, s: seq<Key>) {
    forall i, j :: 0 <= i < j < |s| ==> Before(order, s[i], s[j])
  }

  lemma FirstIsUnique(order: Order, keys: set<Key>, a: Key, b: Key)
    requires IsFirst(order, keys, a) && IsFirst(order, keys, b)
    ensures a == b
  {
  }

  function First(order: Order, keys: set<Key>): (first: Key)
    requires keys != {}
    ensures IsFirst(order, keys, first)
  {
    FirstExists(order, keys);
    assert forall a, b :: IsFirst(order, keys, a) && IsFirst(order, keys, b) ==> a == b by {
      forall a, b | IsFirst(order, keys, a) && IsFirst(order, keys, b) { FirstIsUnique(order, keys, a, b); }
    }
    var first :| first in keys && IsFirst(order, keys, first);
    first
  }

  /** ORDER BY time, id: every key once, in reading order. */
  function Listing(order: Order, keys: set<Key>): (r: seq<Key>)
    ensures |r| == |keys|
  {
    if keys == {} then []
    else
      var first := First(order, keys);
      [first] + Listing(order, keys - {first})
  }

  lemma {:induction false} ListingIsOrdered(order: Order, keys: set<Key>)
    ensures forall k :: k in Listing(order, keys) <==> k in keys
    ensures Ordered(order, Listing(order, keys))
  {
    if keys != {} {
      var first := First(order, keys);
      var rest := Listing(order, keys - {first});
      ListingIsOrdered(order, keys - {first});
      assert Listing(order, keys) == [first] + rest;
      assert forall k :: k in rest ==> Before(order, first, k);
    }
  }

  lemma SomeElement(s: seq<Key>)
    ensures s != [] ==> exists k :: k in s
  {
    if s != [] { assert s[0] in s; }
  }

  /** There is only one way to put a set of keys in order. */
  lemma {:induction false} OrderedIsUnique(order: Order, a: seq<Key>, b: seq<Key>)
    requires Ordered(order, a) && Ordered(order, b)
    requires forall k :: k in a <==> k in b
    ensures a == b
  {
    SomeElement(b);
    if a == [] {
    } else {
      assert a[0] in b && b != [] && b[0] in a;
      assert a[0] == b[0];
      assert a == [a[0]] + a[1..] && b == [b[0]] + b[1..];
      forall k ensures k in a[1..] <==> k in b[1..] {
        assert k in a <==> k == a[0] || k in a[1..];
        assert k in b <==> k == b[0] || k in b[1..];
      }
      OrderedIsUnique(order, a[1..], b[1..]);
    }
  }

  /** The keys read strictly after `cursor`, as a row comparison in the WHERE clause selects them. */
  function KeysAfter(order: Order, keys: set<Key>, cursor: Key): set<Key> {
    set k | k in keys && Before(order, cursor, k)
  }

  lemma OrderedAfterRow(order: Order, keys: set<Key>, all: seq<Key>, rest: seq<Key>, i: nat)
    requires Ordered(order, all) && i < |all| && forall k :: k in all <==> k in keys
    requires Ordered(order, rest) && forall k :: k in rest <==> k in KeysAfter(order, keys, all[i])
    ensures rest == all[i + 1..]
  {
    forall k ensures k in all[i + 1..] <==> k in rest {
      if k in rest {
        var j :| 0 <= j < |all| && all[j] == k;
        assert k == all[i + 1..][j - i - 1];
      }
    }
    OrderedIsUnique(order, rest, all[i + 1..]);
  }

  /** Continuing after the i-th row lists exactly the rows from i + 1 on. */
  lemma ListingAfterRow(order: Order, keys: set<Key>, i: nat)
    requires i < |keys|
    ensures Listing(order, KeysAfter(order, keys, Listing(order, keys)[i])) == Listing(order, keys)[i + 1..]
  {
    var all := Listing(order, keys);
    ListingIsOrdered(order, keys);
    ListingIsOrdered(order, KeysAfter(order, keys, all[i]));
    OrderedAfterRow(order, keys, all, Listing(order, KeysAfter(order, keys, all[i])), i);
  }

  /** LIMIT and OFFSET on an ordered result. */
  function Slice(s: seq<Key>, offset: nat, limit: nat): seq<Key> {
    if offset >= |s| then []
    else if limit >= |s| - offset then s[offset..]
    else s[offset..offset + limit]
  }

  function Reverse(s: seq<Key>): (r: seq<Key>)
    ensures |r| == |s|
  {
    if s == [] then [] else Reverse(s[1..]) + [s[0]]
  }

  lemma {:induction false} ReverseAt(s: seq<Key>)
    ensures forall i :: 0 <= i < |s| ==> Reverse(s)[i] == s[|s| - 1 - i]
    ensures forall k :: k in Reverse(s) <==> k in s
  {
    if s != [] {
      ReverseAt(s[1..]);
      assert s == [s[0]] + s[1..];
    }
  }

  /** Newest first, turned round, is oldest first. */
  lemma ReversedListing(keys: set<Key>)
    ensures Reverse(Listing(Desc, keys)) == Listing(Asc, keys)
  {
    ListingIsOrdered(Desc, keys);
    ListingIsOrdered(Asc, keys);
    ReverseAt(Listing(Desc, keys));
    OrderedIsUnique(Asc, Reverse(Listing(Desc, keys)), Listing(Asc, keys));
  }

  lemma ReverseOfSum(a: seq<Key>, b: seq<Key>)
    ensures Reverse(a + b) == Reverse(b) + Reverse(a)
  {
    ReverseAt(a);
    ReverseAt(b);
    ReverseAt(a + b);
  }
}
