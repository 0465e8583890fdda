/** Turning the provider's growing cumulative texts into deltas. */
module ChunkDeltas {

  datatype Step = Step(delta: string, retained: string)

  /** One chunk: skipped when it adds nothing, a suffix when the text grew, the whole text after a reset. */
  function Advance(retained: string, current: string): Step {
    if |current| <= |retained| && current == retained[..|current|] then Step("", retained)
    else if retained <= current then Step(current[|retained|..], current)
    else Step(current, current)
  }

  /** The text the next chunk is compared with. */
  function Retained(texts: seq<string>): string {
    if texts == [] then "" else Advance(Retained(texts[..|texts| - 1]), texts[|texts| - 1]).retained
  }

  /** The deltas that are yielded; skipped chunks yield none. */
  function Deltas(texts: seq<string>): seq<string> {
    if texts == [] then []
    else
      var step := Advance(Retained(texts[..|texts| - 1]), texts[|texts| - 1]);
      Deltas(texts[..|texts| - 1]) + (if step.delta == "" then [] else [step.delta])
  }

  function Concat(parts: seq<string>): string {
    if parts == [] then "" else Concat(parts[..|parts| - 1]) + parts[|parts| - 1]
  }

  lemma ConcatSnoc(parts: seq<string>, last: string)
    ensures Concat(parts + [last]) == Concat(parts) + last
  {
    assert (parts + [last])[..|parts|] == parts;
  }

  lemma DeltasSnoc(texts: seq<string>, current: string)
    ensures Retained(texts + [current]) == Advance(Retained(texts), current).retained
    ensures var step := Advance(Retained(texts), current);
            Deltas(texts + [current]) == (if step.delta == "" then Deltas(texts) else Deltas(texts) + [step.delta])
  {
    assert (texts + [current])[..|texts|] == texts;
  }

  lemma {:induction false} DeltasOfPrefix(texts: seq<string>, n: nat)
    requires n <= |texts|
    ensures Deltas(texts[..n]) <= Deltas(texts)
  {
    if n < |texts| {
      DeltasOfPrefix(texts[..|texts| - 1], n);
      assert texts[..|texts| - 1][..n] == texts[..n];
    } else {
      assert texts[..n] == texts;
    }
  }

  lemma GrowthYieldsSuffix(retained: string, current: string)
    requires retained <= current
    ensures Advance(retained, current) == Step(current[|retained|..], current)
    ensures retained + current[|retained|..] == current
  {
  }

  predicate EndsWith(s: string, suffix: string) {
    |suffix| <= |s| && s[|s| - |suffix|..] == suffix
  }

  lemma {:induction false} AccumulatedEndsWithRetained(texts: seq<string>)
    ensures EndsWith(Concat(Deltas(texts)), Retained(texts))
  {
    if texts != [] {
      var init := texts[..|texts| - 1];
      AccumulatedEndsWithRetained(init);
      var step := Advance(Retained(init), texts[|texts| - 1]);
      if step.delta == "" {
        assert Deltas(init) + [] == Deltas(init);
      } else {
        ConcatSnoc(Deltas(init), step.delta);
      }
    }
  }

  lemma SuffixOfSuffix(all: string, kept: string, latest: string)
    requires EndsWith(all, kept) && |latest| <= |kept|
    ensures EndsWith(all, latest) <==> EndsWith(kept, latest)
  {
    assert all[|all| - |latest|..] == all[|all| - |kept|..][|kept| - |latest|..];
  }

  lemma AdvanceKeepsCurrent(retained: string, current: string)
    ensures current <= Advance(retained, current).retained
    ensures Advance(retained, current).retained == if current < retained then retained else current
  {
  }

  /**
   * The accumulated deltas end with the provider's latest text exactly when that text was not skipped as a shorter
   * repeat of the retained one, or happens to end it as well as begin it.
   */
  lemma AccumulatedEndsWithLatest(texts: seq<string>, latest: string)
    ensures latest <= Retained(texts + [latest])
    ensures EndsWith(Concat(Deltas(texts + [latest])), latest) <==> !(latest < Retained(texts)) || EndsWith(Retained(texts), latest)
  {
    hide Deltas, Retained, Concat;
    AccumulatedEndsWithRetained(texts + [latest]);
    DeltasSnoc(texts, latest);
    AdvanceKeepsCurrent(Retained(texts), latest);
    SuffixOfSuffix(Concat(Deltas(texts + [latest])), Retained(texts + [latest]), latest);
  }

  predicate Growing(texts: seq<string>) {
    |texts| > 1 ==> Growing(texts[..|texts| - 1]) && texts[|texts| - 2] <= texts[|texts| - 1]
  }

  lemma GrowthStep(texts: seq<string>, latest: string)
    requires Concat(Deltas(texts)) == Retained(texts) <= latest
    ensures Concat(Deltas(texts + [latest])) == Retained(texts + [latest]) == latest
  {
    hide Deltas, Retained, Concat, Advance;
    DeltasSnoc(texts, latest);
    GrowthYieldsSuffix(Retained(texts), latest);
    ConcatSnoc(Deltas(texts), latest[|Retained(texts)|..]);
  }

  /** When every text extends the one before, the deltas add up to the last text and nothing else. */
  lemma {:induction false} GrowingTextIsReproduced(texts: seq<string>)
    requires Growing(texts)
    ensures Concat(Deltas(texts)) == Retained(texts) == if texts == [] then "" else texts[|texts| - 1]
  {
    if texts != [] {
      hide Deltas, Retained, Concat;
      var init, latest := texts[..|texts| - 1], texts[|texts| - 1];
      assert Concat(Deltas(init)) == Retained(init) <= latest by {
        GrowingTextIsReproduced(init);
        NothingYet();
      }
      assert Concat(Deltas(texts)) == Retained(texts) == latest by {
        GrowthStep(init, latest);
        assert texts == init + [latest];
      }
    }
  }

  lemma NothingYet()
    ensures Retained([]) == ""
  {
  }

  /** A provider that shortens its text leaves the client with the longer one. */
  lemma ShrinkingTextIsNotFollowed()
    ensures Concat(Deltas(["ab", "a"])) == "ab"
    ensures !EndsWith(Concat(Deltas(["ab", "a"])), "a")
  {
    assert Advance("", "ab") == Step("ab", "ab");
    assert Advance("ab", "a") == Step("", "ab") by { assert "ab"[..1] == "a"; }
    DeltasSnoc([], "ab");
    assert [] + ["ab"] == ["ab"];
    DeltasSnoc(["ab"], "a");
    assert ["ab"] + ["a"] == ["ab", "a"];
    ConcatSnoc([], "ab");
  }
}
