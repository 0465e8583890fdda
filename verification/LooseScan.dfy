/**
 * The loose index scan behind the filter dropdowns: one probe per distinct value instead of one
 * read per row. Column values are compared by `TextOrder.Less`.
 */
module LooseScan {
  import opened Options
  import opened TextOrder

  predicate IsLeast(values: set<string>, v: string) {
    v in values && forall w :: w in values && w != v ==> Less(v, w)
  }

  lemma {:induction false} LeastExists(values: set<string>)
    requires values != {}
    ensures exists v :: IsLeast(values, v)
  {
    var some :| some in values;
    var rest := values - {some};
    assert values == rest + {some};
    if rest == {} {
      assert IsLeast(values, some);
    } else {
      LeastExists(rest);
      var best :| IsLeast(rest, best);
      LessIsTotal(some, best);
      if Less(some, best) {
        forall w | w in values && w != some ensures Less(some, w) {
          if w != best { LessIsTransitive(some, best, w); }
        }
        assert IsLeast(values, some);
      } else {
        assert IsLeast(values, best);
      }
    }
  }

  lemma LeastIsUnique(values: set<string>, a: string, b: string)
    requires IsLeast(values, a) && IsLeast(values, b)
    ensures a == b
  {
    if a != b { LessIsAsymmetric(a, b); }
  }

  function Least(values: set<string>): (v: string)
    requires values != {}
    ensures IsLeast(values, v)
  {
    LeastExists(values);
    assert forall a, b :: IsLeast(values, a) && IsLeast(values, b) ==> a == b by {
      forall a, b | IsLeast(values, a) && IsLeast(values, b) { LeastIsUnique(values, a, b); }
    }
    var v :| v in values && IsLeast(values, v);
    v
  }

  function Column(rows: seq<string>): set<string> {
    set v | v in rows
  }

  function ColumnAbove(rows: seq<string>, bound: string): set<string> {
    set v | v in rows && Less(bound, v)
  }

  predicate Ascending(s: seq<string>) {
    forall i, j :: 0 <= i < j < |s| ==> Less(s[i], s[j])
  }

  /** One index probe: ORDER BY column LIMIT 1, over the values above a bound when there is one. */
  function Probe(rows: seq<string>, above: Option<string>): Option<string> {
    var candidates := if above.None? then Column(rows) else ColumnAbove(rows, above.value);
    if candidates == {} then None else Some(Least(candidates))
  }

  /**
   * The recursive query, row by row of its working table: the seed probe, then one probe per row until a
   * probe finds nothing. Returns each distinct value once, ascending, after one probe more than there are values.
   */
  method ListDistinct(rows: seq<string>) returns (result: seq<string>, probes: nat)
    ensures Ascending(result)
    ensures forall v :: v in result <==> v in rows
    ensures |result| == |Column(rows)|
    ensures probes == |Column(rows)| + 1
  {
    result, probes := [], 1;
    var current := Probe(rows, None);
    assert forall v :: v in rows ==> v in Column(rows);
    while current.Some?
      invariant probes == |result| + 1
      invariant Ascending(result)
      invariant forall v :: v in result ==> v in rows
      invariant current.Some? ==> current.value in rows && forall v :: v in result ==> Less(v, current.value)
      invariant current.Some? ==> forall v :: v in rows && v !in result && v != current.value ==> Less(current.value, v)
      invariant current.None? ==> forall v :: v in rows ==> v in result
      decreases Column(rows) - Column(result), current
    {
      var here := current.value;
      LessIsIrreflexive(here);
      ghost var before := result;
      result := result + [here];
      current := Probe(rows, Some(here));
      probes := probes + 1;
      StepKeepsScan(rows, before, here, current);
      assert here in Column(rows) - Column(before) && here !in Column(rows) - Column(result);
    }
    assert Column(result) == Column(rows);
    AscendingHasNoDuplicates(result);
  }

  /** What the next probe leaves unread is above it, and nothing is left when it finds nothing. */
  lemma StepKeepsScan(rows: seq<string>, before: seq<string>, here: string, next: Option<string>)
    requires here in rows && next == Probe(rows, Some(here))
    requires forall v :: v in before ==> Less(v, here)
    requires forall v :: v in rows && v !in before && v != here ==> Less(here, v)
    ensures next.Some? ==> next.value in rows && forall v :: v in before + [here] ==> Less(v, next.value)
    ensures next.Some? ==> forall v :: v in rows && v !in before + [here] && v != next.value ==> Less(next.value, v)
    ensures next.None? ==> forall v :: v in rows ==> v in before + [here]
  {
    var above := ColumnAbove(rows, here);
    if next.Some? {
      forall v | v in before + [here] ensures Less(v, next.value) {
        if v != here { LessIsTransitive(v, here, next.value); }
      }
    }
    forall v | v in rows && v !in before + [here] ensures v in above && next.Some? {
      assert v in above;
    }
  }

  lemma {:induction false} AscendingHasNoDuplicates(s: seq<string>)
    requires Ascending(s)
    ensures |Column(s)| == |s|
  {
    if s != [] {
      var init, last := s[..|s| - 1], s[|s| - 1];
      AscendingHasNoDuplicates(init);
      LessIsIrreflexive(last);
      assert s == init + [last];
      assert last !in init;
      assert Column(s) == Column(init) + {last};
    }
  }

  lemma HeadIsInColumn(s: seq<string>)
    ensures s != [] ==> Column(s) != {}
  {
    if s != [] { assert s[0] in Column(s); }
  }

  /** Any ascending list of the column's values is the same list: the scan agrees with DISTINCT and ORDER BY. */
  lemma {:induction false} AscendingListIsUnique(a: seq<string>, b: seq<string>)
    requires Ascending(a) && Ascending(b)
    requires Column(a) == Column(b)
    ensures a == b
  {
    HeadIsInColumn(b);
    if a == [] {
    } else {
      assert a[0] in Column(b) && b != [] && b[0] in Column(a);
      if a[0] != b[0] {
        assert Less(a[0], b[0]) && Less(b[0], a[0]);
        LessIsAsymmetric(a[0], b[0]);
      }
      LessIsIrreflexive(a[0]);
      assert Column(a[1..]) == Column(a) - {a[0]};
      assert Column(b[1..]) == Column(b) - {b[0]};
      AscendingListIsUnique(a[1..], b[1..]);
    }
  }
}
