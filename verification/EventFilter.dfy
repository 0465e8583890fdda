/**
 * The WHERE clause of the events list: numbered placeholders and the values bound to them
 * are pushed side by side, and together they must mean the filter that was asked for.
 */
module EventFilter {
  import opened Keyset
  import opened Options

  /** A JSON value as far as a filter can tell values apart. */
  datatype Json = Str(text: string) | Num(number: real) | Bool(flag: bool) | Null | Compound

  /** The columns of an event row other than its key. */
  datatype Event = Event(kind: string, service: string, entityId: Option<string>, ownerId: Option<string>,
                         correlationId: Option<string>, payload: map<string, Json>)

  /** Absent text filters are empty, as the source tests them by truthiness. */
  datatype Filter = Filter(ownerId: string, kinds: seq<string>, services: seq<string>, entityId: string,
                           correlationId: string, from: Option<int>, to: Option<int>,
                           payload: seq<(string, string)>)

  predicate IsDigits(s: string) {
    s != "" && forall i :: 0 <= i < |s| ==> '0' <= s[i] <= '9'
  }

  function DigitsValue(s: string): int
    requires IsDigits(s)
  {
    (if |s| == 1 then 0 else 10 * DigitsValue(s[..|s| - 1])) + (s[|s| - 1] - '0') as int
  }

  /** `n` places behind the point. */
  function Behind(x: real, n: nat): real {
    if n == 0 then x else Behind(x, n - 1) / 10.0
  }

  /** The point moved `n` places to the right. */
  function Shifted(x: real, n: nat): real {
    if n == 0 then x else 10.0 * Shifted(x, n - 1)
  }

  function PointIndex(s: string): (i: nat)
    ensures i <= |s|
  {
    if s == "" || s[0] == '.' then 0 else 1 + PointIndex(s[1..])
  }

  /** A strict unsigned decimal literal: digits, then optionally a point and more digits. */
  function UnsignedDecimal(s: string): Option<real> {
    var point := PointIndex(s);
    if !IsDigits(s[..point]) then None
    else if point == |s| then Some(DigitsValue(s[..point]) as real)
    else if !IsDigits(s[point + 1..]) then None
    else Some(DigitsValue(s[..point]) as real
              + Behind(DigitsValue(s[point + 1..]) as real, |s| - point - 1))
  }

  function SignedDecimal(s: string): Option<real> {
    if s == "" || s[0] != '-' then UnsignedDecimal(s)
    else
      match UnsignedDecimal(s[1..])
      case None => None
      case Some(n) => Some(-n)
  }

  /** The decimal that is left after a number is read as a double and printed; none when it is read as an infinity. */
  type Reading = real -> Option<real>

  /** The scalar a query-string value also stands for, when it is more than a string. An infinity prints as null. */
  function JsonScalar(value: string, read: Reading): Option<Json> {
    if value == "true" then Some(Bool(true))
    else if value == "false" then Some(Bool(false))
    else if value == "null" then Some(Null)
    else
      match SignedDecimal(value)
      case None => None
      case Some(n) => Some(if read(n).Some? then Num(read(n).value) else Null)
  }

  predicate PayloadMatches(payload: map<string, Json>, pair: (string, string), read: Reading) {
    pair.0 in payload && (payload[pair.0] == Str(pair.1) || Some(payload[pair.0]) == JsonScalar(pair.1, read))
  }

  /** What the filter means, row by row. */
  predicate Matches(f: Filter, read: Reading, key: Key, e: Event) {
    && (f.ownerId == "" || e.ownerId == Some(f.ownerId))
    && (f.kinds == [] || e.kind in f.kinds)
    && (f.services == [] || e.service in f.services)
    && (f.entityId == "" || e.entityId == Some(f.entityId))
    && (f.correlationId == "" || e.correlationId == Some(f.correlationId))
    && (f.from.None? || key.at >= f.from.value)
    && (f.to.None? || key.at <= f.to.value)
    && forall i :: 0 <= i < |f.payload| ==> PayloadMatches(e.payload, f.payload[i], read)
  }

  /** A filter that asks for nothing. */
  const ANY := Filter("", [], [], "", "", None, None, [])

  /** Each part of a filter alone: equality, membership, and bounds that include their instant. */
  lemma FilterParts(read: Reading, key: Key, e: Event, text: string, texts: seq<string>, t: int, pair: (string, string))
    requires text != "" && texts != []
    ensures Matches(ANY, read, key, e)
    ensures Matches(ANY.(ownerId := text), read, key, e) <==> e.ownerId == Some(text)
    ensures Matches(ANY.(kinds := texts), read, key, e) <==> e.kind in texts
    ensures Matches(ANY.(services := texts), read, key, e) <==> e.service in texts
    ensures Matches(ANY.(entityId := text), read, key, e) <==> e.entityId == Some(text)
    ensures Matches(ANY.(correlationId := text), read, key, e) <==> e.correlationId == Some(text)
    ensures Matches(ANY.(from := Some(t)), read, key, e) <==> t <= key.at
    ensures Matches(ANY.(to := Some(t)), read, key, e) <==> key.at <= t
    ensures Matches(ANY.(payload := [pair]), read, key, e) <==> PayloadMatches(e.payload, pair, read)
  {
    assert [pair][0] == pair;
  }

  /** A filter asks for all its parts at once. */
  lemma FilterIsAllItsParts(f: Filter, read: Reading, key: Key, e: Event)
    ensures Matches(f, read, key, e) <==>
      && Matches(ANY.(ownerId := f.ownerId), read, key, e) && Matches(ANY.(kinds := f.kinds), read, key, e)
      && Matches(ANY.(services := f.services), read, key, e) && Matches(ANY.(entityId := f.entityId), read, key, e)
      && Matches(ANY.(correlationId := f.correlationId), read, key, e)
      && Matches(ANY.(from := f.from), read, key, e) && Matches(ANY.(to := f.to), read, key, e)
      && forall i :: 0 <= i < |f.payload| ==> Matches(ANY.(payload := [f.payload[i]]), read, key, e)
  {
    forall i | 0 <= i < |f.payload|
      ensures Matches(ANY.(payload := [f.payload[i]]), read, key, e) <==> PayloadMatches(e.payload, f.payload[i], read)
    {
      assert ANY.(payload := [f.payload[i]]).payload[0] == f.payload[i];
    }
  }

  /** A bound parameter. */
  datatype Value =
    | Text(text: string)
    | Texts(texts: seq<string>)
    | Instant(at: int)
    | Id(id: nat)
    | Member(name: string, json: Json)

  /** One conjunct of the WHERE clause; the numbers are its 1-based placeholders. */
  datatype Condition =
    | OwnerIs(p: nat)
    | KindIn(p: nat)
    | ServiceIn(p: nat)
    | EntityIs(p: nat)
    | CorrelationIs(p: nat)
    | NotBefore(p: nat)
    | NotAfter(p: nat)
    | Contains(p: nat)
    | ContainsEither(p: nat, q: nat)
    | PastCursor(order: Order, p: nat, q: nat)

  function Bound(values: seq<Value>, p: nat): Option<Value> {
    if 1 <= p <= |values| then Some(values[p - 1]) else None
  }

  predicate ContainsMember(payload: map<string, Json>, v: Option<Value>) {
    v.Some? && v.value.Member? && v.value.name in payload && payload[v.value.name] == v.value.json
  }

  /** What the database evaluates. */
  predicate Holds(c: Condition, values: seq<Value>, key: Key, e: Event) {
    match c
    case OwnerIs(p) => e.ownerId.Some? && Bound(values, p) == Some(Text(e.ownerId.value))
    case EntityIs(p) => e.entityId.Some? && Bound(values, p) == Some(Text(e.entityId.value))
    case CorrelationIs(p) => e.correlationId.Some? && Bound(values, p) == Some(Text(e.correlationId.value))
    case KindIn(p) => var v := Bound(values, p); v.Some? && v.value.Texts? && e.kind in v.value.texts
    case ServiceIn(p) => var v := Bound(values, p); v.Some? && v.value.Texts? && e.service in v.value.texts
    case NotBefore(p) => var v := Bound(values, p); v.Some? && v.value.Instant? && key.at >= v.value.at
    case NotAfter(p) => var v := Bound(values, p); v.Some? && v.value.Instant? && key.at <= v.value.at
    case Contains(p) => ContainsMember(e.payload, Bound(values, p))
    case ContainsEither(p, q) =>
      ContainsMember(e.payload, Bound(values, p)) || ContainsMember(e.payload, Bound(values, q))
    case PastCursor(order, p, q) =>
      var t, i := Bound(values, p), Bound(values, q);
      t.Some? && i.Some? && t.value.Instant? && i.value.Id? && Before(order, Key(t.value.at, i.value.id), key)
  }

  /** What each condition says of a row, with its value bound to the first placeholder. */
  lemma ConditionsMean(key: Key, e: Event, text: string, texts: seq<string>, t: int, id: nat, name: string, json: Json,
                       other: Json)
    ensures Holds(OwnerIs(1), [Text(text)], key, e) <==> e.ownerId == Some(text)
    ensures Holds(EntityIs(1), [Text(text)], key, e) <==> e.entityId == Some(text)
    ensures Holds(CorrelationIs(1), [Text(text)], key, e) <==> e.correlationId == Some(text)
    ensures Holds(KindIn(1), [Texts(texts)], key, e) <==> e.kind in texts
    ensures Holds(ServiceIn(1), [Texts(texts)], key, e) <==> e.service in texts
    ensures Holds(NotBefore(1), [Instant(t)], key, e) <==> t <= key.at
    ensures Holds(NotAfter(1), [Instant(t)], key, e) <==> key.at <= t
    ensures Holds(Contains(1), [Member(name, json)], key, e) <==> name in e.payload && e.payload[name] == json
    ensures Holds(ContainsEither(1, 2), [Member(name, json), Member(name, other)], key, e) <==>
      name in e.payload && (e.payload[name] == json || e.payload[name] == other)
    ensures Holds(PastCursor(Asc, 1, 2), [Instant(t), Id(id)], key, e) <==> t < key.at || (t == key.at && id < key.id)
    ensures Holds(PastCursor(Desc, 1, 2), [Instant(t), Id(id)], key, e) <==> key.at < t || (t == key.at && key.id < id)
  {
  }

  predicate AllHold(conditions: seq<Condition>, values: seq<Value>, key: Key, e: Event) {
    forall i :: 0 <= i < |conditions| ==> Holds(conditions[i], values, key, e)
  }

  predicate UsesOnly(c: Condition, n: nat) {
    1 <= c.p <= n && ((c.ContainsEither? || c.PastCursor?) ==> 1 <= c.q <= n)
  }

  predicate AllUseOnly(conditions: seq<Condition>, n: nat) {
    forall i :: 0 <= i < |conditions| ==> UsesOnly(conditions[i], n)
  }

  const COLUMN_TESTS := 7

  /** The tests of the filter in the order the source pushes them: seven columns, then the payload pairs. */
  predicate Test(f: Filter, read: Reading, n: nat, key: Key, e: Event) {
    match n
    case 0 => f.ownerId == "" || e.ownerId == Some(f.ownerId)
    case 1 => f.kinds == [] || e.kind in f.kinds
    case 2 => f.services == [] || e.service in f.services
    case 3 => f.entityId == "" || e.entityId == Some(f.entityId)
    case 4 => f.correlationId == "" || e.correlationId == Some(f.correlationId)
    case 5 => f.from.None? || key.at >= f.from.value
    case 6 => f.to.None? || key.at <= f.to.value
    case _ => n - COLUMN_TESTS < |f.payload| ==> PayloadMatches(e.payload, f.payload[n - COLUMN_TESTS], read)
  }

  predicate PassesFirst(f: Filter, read: Reading, n: nat, key: Key, e: Event) {
    forall i :: 0 <= i < n ==> Test(f, read, i, key, e)
  }

  /** The clause built so far says exactly the first `n` tests, of every possible row. */
  ghost predicate Says(conditions: seq<Condition>, values: seq<Value>, f: Filter, read: Reading, n: nat) {
    && AllUseOnly(conditions, |values|)
    && forall key, e :: AllHold(conditions, values, key, e) <==> PassesFirst(f, read, n, key, e)
  }

  lemma PassesAllIsMatches(f: Filter, read: Reading, key: Key, e: Event)
    ensures PassesFirst(f, read, COLUMN_TESTS + |f.payload|, key, e) <==> Matches(f, read, key, e)
  {
    if PassesFirst(f, read, COLUMN_TESTS + |f.payload|, key, e) {
      assert Test(f, read, 0, key, e) && Test(f, read, 1, key, e) && Test(f, read, 2, key, e) && Test(f, read, 3, key, e)
          && Test(f, read, 4, key, e) && Test(f, read, 5, key, e) && Test(f, read, 6, key, e);
      forall i | 0 <= i < |f.payload| ensures PayloadMatches(e.payload, f.payload[i], read) {
        assert Test(f, read, COLUMN_TESTS + i, key, e);
      }
    }
  }

  /** Values pushed later never change what an earlier placeholder binds. */
  lemma LaterValuesKeepMeaning(conditions: seq<Condition>, values: seq<Value>, more: seq<Value>, key: Key, e: Event)
    requires AllUseOnly(conditions, |values|)
    ensures AllHold(conditions, values + more, key, e) <==> AllHold(conditions, values, key, e)
  {
    assert forall p :: 1 <= p <= |values| ==> Bound(values + more, p) == Bound(values, p);
    forall i | 0 <= i < |conditions|
      ensures Holds(conditions[i], values + more, key, e) <==> Holds(conditions[i], values, key, e)
    {
      assert UsesOnly(conditions[i], |values|);
    }
  }

  /** A conjunct that tests what test `n` asks extends the clause to `n + 1` tests. */
  lemma PushKeepsSaying(conditions: seq<Condition>, values: seq<Value>, f: Filter, read: Reading, n: nat,
                        c: Condition, more: seq<Value>)
    requires Says(conditions, values, f, read, n)
    requires UsesOnly(c, |values + more|)
    requires forall key, e :: Holds(c, values + more, key, e) <==> Test(f, read, n, key, e)
    ensures Says(conditions + [c], values + more, f, read, n + 1)
  {
    var all := conditions + [c];
    forall i | 0 <= i < |all| ensures UsesOnly(all[i], |values + more|) {
      if i < |conditions| { assert UsesOnly(conditions[i], |values|); }
    }
    forall key, e ensures AllHold(all, values + more, key, e) <==> PassesFirst(f, read, n + 1, key, e) {
      LaterValuesKeepMeaning(conditions, values, more, key, e);
      assert all[|conditions|] == c;
      assert forall i :: 0 <= i < |conditions| ==> all[i] == conditions[i];
      assert PassesFirst(f, read, n + 1, key, e) <==> PassesFirst(f, read, n, key, e) && Test(f, read, n, key, e);
    }
  }

  lemma SkipKeepsSaying(conditions: seq<Condition>, values: seq<Value>, f: Filter, read: Reading, n: nat)
    requires Says(conditions, values, f, read, n)
    requires forall key, e :: Test(f, read, n, key, e)
    ensures Says(conditions, values, f, read, n + 1)
  {
    forall key, e ensures PassesFirst(f, read, n + 1, key, e) <==> PassesFirst(f, read, n, key, e) {
      assert Test(f, read, n, key, e);
    }
  }

  /** Pushes one conjunct and its value when the filter asks for test `n`. */
  method PushWhen(wanted: bool, c: Condition, v: Value, before: seq<Condition>, bound: seq<Value>,
                  ghost f: Filter, ghost read: Reading, ghost n: nat)
    returns (conditions: seq<Condition>, values: seq<Value>, idx: nat)
    requires Says(before, bound, f, read, n)
    requires UsesOnly(c, |bound| + 1)
    requires wanted ==> forall key, e :: Holds(c, bound + [v], key, e) <==> Test(f, read, n, key, e)
    requires !wanted ==> forall key, e :: Test(f, read, n, key, e)
    ensures idx == |values| + 1
    ensures Says(conditions, values, f, read, n + 1)
  {
    if wanted {
      PushKeepsSaying(before, bound, f, read, n, c, [v]);
      conditions, values, idx := before + [c], bound + [v], |bound| + 2;
    } else {
      SkipKeepsSaying(before, bound, f, read, n);
      conditions, values, idx := before, bound, |bound| + 1;
    }
  }

  /** The column filters, in the source's order. */
  method PushColumns(f: Filter, ghost read: Reading) returns (conditions: seq<Condition>, values: seq<Value>, idx: nat)
    ensures idx == |values| + 1
    ensures Says(conditions, values, f, read, COLUMN_TESTS)
  {
    conditions, values, idx := [], [], 1;
    conditions, values, idx := PushWhen(f.ownerId != "", OwnerIs(idx), Text(f.ownerId), conditions, values, f, read, 0);
    conditions, values, idx := PushWhen(f.kinds != [], KindIn(idx), Texts(f.kinds), conditions, values, f, read, 1);
    conditions, values, idx := PushWhen(f.services != [], ServiceIn(idx), Texts(f.services), conditions, values, f, read, 2);
    conditions, values, idx := PushWhen(f.entityId != "", EntityIs(idx), Text(f.entityId), conditions, values, f, read, 3);
    conditions, values, idx :=
      PushWhen(f.correlationId != "", CorrelationIs(idx), Text(f.correlationId), conditions, values, f, read, 4);
    conditions, values, idx :=
      PushWhen(f.from.Some?, NotBefore(idx), Instant(f.from.GetOr(0)), conditions, values, f, read, 5);
    conditions, values, idx :=
      PushWhen(f.to.Some?, NotAfter(idx), Instant(f.to.GetOr(0)), conditions, values, f, read, 6);
  }

  /** The whole clause: a row passes it exactly when the filter matches, and no value is left without a number. */
  method BuildWhere(f: Filter, read: Reading) returns (conditions: seq<Condition>, values: seq<Value>, idx: nat)
    ensures idx == |values| + 1
    ensures AllUseOnly(conditions, |values|)
    ensures forall key, e :: AllHold(conditions, values, key, e) <==> Matches(f, read, key, e)
  {
    conditions, values, idx := PushColumns(f, read);
    for n := 0 to |f.payload|
      invariant idx == |values| + 1
      invariant Says(conditions, values, f, read, COLUMN_TESTS + n)
    {
      var (name, text) := f.payload[n];
      var asText, typed := Member(name, Str(text)), JsonScalar(text, read);
      match typed
      case None =>
        PushKeepsSaying(conditions, values, f, read, COLUMN_TESTS + n, Contains(idx), [asText]);
        conditions, values, idx := conditions + [Contains(idx)], values + [asText], idx + 1;
      case Some(scalar) =>
        PushKeepsSaying(conditions, values, f, read, COLUMN_TESTS + n, ContainsEither(idx, idx + 1),
                        [asText, Member(name, scalar)]);
        conditions, values, idx :=
          conditions + [ContainsEither(idx, idx + 1)], values + [asText, Member(name, scalar)], idx + 2;
    }
    forall key, e ensures AllHold(conditions, values, key, e) <==> Matches(f, read, key, e) {
      PassesAllIsMatches(f, read, key, e);
    }
  }

  // Numbers.

  lemma {:induction false} DigitsHaveNoPoint(s: string)
    requires forall i :: 0 <= i < |s| ==> s[i] != '.'
    ensures PointIndex(s) == |s|
  {
    if s != "" { DigitsHaveNoPoint(s[1..]); }
  }

  /**
   * A stored number is found by a text exactly when the text, read as a double and printed, is that number; a text too
   * large for a double finds a null instead. A stored string is found only by its own spelling.
   */
  lemma NumberIsFoundIffReadAsIt(payload: map<string, Json>, name: string, text: string, n: real, read: Reading)
    requires SignedDecimal(text) == Some(n)
    ensures forall m :: PayloadMatches(payload[name := Num(m)], (name, text), read) <==> read(n) == Some(m)
    ensures PayloadMatches(payload[name := Null], (name, text), read) <==> read(n).None?
    ensures forall t :: PayloadMatches(payload[name := Str(t)], (name, text), read) <==> t == text
  {
    LettersAreNoDecimal(text);
  }

  lemma LettersAreNoDecimal(text: string)
    requires SignedDecimal(text).Some?
    ensures text != "true" && text != "false" && text != "null"
  {
    if text[0] != '-' && PointIndex(text) > 0 { assert text[..PointIndex(text)][0] == text[0]; }
  }

  lemma {:induction false} PointComesFirst(a: string, b: string)
    requires '.' !in a
    ensures PointIndex(a + "." + b) == |a|
  {
    if a != "" {
      assert (a + "." + b)[1..] == a[1..] + "." + b;
      PointComesFirst(a[1..], b);
    }
  }

  lemma {:induction false} PointSplits(s: string)
    requires PointIndex(s) < |s|
    ensures s == s[..PointIndex(s)] + "." + s[PointIndex(s) + 1..]
  {
    if s[0] != '.' {
      PointSplits(s[1..]);
      assert s == [s[0]] + s[1..];
    }
  }

  lemma DigitsSnoc(s: string, c: char)
    requires IsDigits(s) && '0' <= c <= '9'
    ensures IsDigits(s + [c]) && DigitsValue(s + [c]) as real == 10.0 * (DigitsValue(s) as real) + (c - '0') as int as real
  {
    assert (s + [c])[..|s|] == s;
  }

  lemma {:induction false} ShiftedBack(x: real, y: real, n: nat)
    ensures Shifted(x + Behind(y, n), n) == Shifted(x, n) + y
    decreases n
  {
    if n > 0 {
      ShiftedBack(x, y / 10.0, n - 1);
      BehindOnce(y, n - 1);
    }
  }

  lemma {:induction false} BehindOnce(y: real, n: nat)
    ensures Behind(y / 10.0, n) == Behind(y, n) / 10.0
    decreases n
  {
    if n > 0 { BehindOnce(y, n - 1); }
  }

  /** Digits written behind each other. */
  lemma {:induction false} DigitsOfSum(a: string, b: string)
    requires IsDigits(a) && IsDigits(b)
    ensures IsDigits(a + b)
    ensures DigitsValue(a + b) as real == Shifted(DigitsValue(a) as real, |b|) + DigitsValue(b) as real
  {
    var last := |b| - 1;
    assert a + b == a + b[..last] + [b[last]] && b == b[..last] + [b[last]];
    var x := DigitsValue(a) as real;
    assert Shifted(x, |b|) == 10.0 * Shifted(x, last);
    if last > 0 {
      DigitsOfSum(a, b[..last]);
      DigitsSnoc(a + b[..last], b[last]);
      DigitsSnoc(b[..last], b[last]);
    } else {
      assert a + b[..last] == a && Shifted(x, 0) == x;
      DigitsSnoc(a, b[last]);
    }
    hide DigitsValue, Shifted;
  }

  lemma WholeDecimal(a: string)
    requires IsDigits(a) && PointIndex(a) == |a|
    ensures UnsignedDecimal(a) == Some(DigitsValue(a) as real)
  {
    assert a[..|a|] == a;
    hide DigitsValue, Behind, PointIndex, IsDigits;
  }

  lemma DecimalAt(s: string, a: string, b: string)
    requires PointIndex(s) == |a| && |s| == |a| + 1 + |b| && s[..|a|] == a && s[|a| + 1..] == b
    requires IsDigits(a) && IsDigits(b)
    ensures UnsignedDecimal(s) == Some(DigitsValue(a) as real + Behind(DigitsValue(b) as real, |b|))
  {
    hide DigitsValue, Behind, PointIndex, IsDigits;
  }

  lemma DecimalHasItsDigits(s: string, a: string, b: string)
    requires PointIndex(s) == |a| && |s| == |a| + 1 + |b| && s[..|a|] == a && s[|a| + 1..] == b
    requires IsDigits(a) && IsDigits(b)
    ensures UnsignedDecimal(s).Some? && IsDigits(a + b)
      && Shifted(UnsignedDecimal(s).value, |b|) == DigitsValue(a + b) as real
  {
    hide UnsignedDecimal, DigitsValue, Behind, Shifted, PointIndex, IsDigits;
    DecimalAt(s, a, b);
    DigitsOfSum(a, b);
    ShiftedBack(DigitsValue(a) as real, DigitsValue(b) as real, |b|);
  }

  /**
   * A decimal is digits, or digits, a point and digits; as many places to the right of the point as there are digits
   * behind it, it is the number of all its digits.
   */
  lemma DecimalIsItsDigits(a: string, b: string)
    requires IsDigits(a) && IsDigits(b)
    ensures UnsignedDecimal(a) == Some(DigitsValue(a) as real)
    ensures UnsignedDecimal(a + "." + b).Some? && IsDigits(a + b)
      && Shifted(UnsignedDecimal(a + "." + b).value, |b|) == DigitsValue(a + b) as real
  {
    DigitsHaveNoPoint(a);
    PointComesFirst(a, b);
    hide UnsignedDecimal, DigitsValue, Behind, Shifted, PointIndex;
    var s := a + "." + b;
    assert s[..|a|] == a && s[|a| + 1..] == b;
    hide IsDigits;
    WholeDecimal(a);
    DecimalHasItsDigits(s, a, b);
  }

  /** Nothing else is a decimal; a sign in front negates. */
  lemma DecimalIff(s: string)
    ensures UnsignedDecimal(s).Some? <==> IsDigits(s) || exists a, b :: IsDigits(a) && IsDigits(b) && s == a + "." + b
    ensures SignedDecimal("-" + s).Some? <==> UnsignedDecimal(s).Some?
    ensures UnsignedDecimal(s).Some? ==> SignedDecimal("-" + s) == Some(-UnsignedDecimal(s).value)
    ensures UnsignedDecimal(s).Some? ==> SignedDecimal(s) == UnsignedDecimal(s)
  {
    assert ("-" + s)[1..] == s;
    if IsDigits(s) { DecimalIsItsDigits(s, s); }
    forall a, b | IsDigits(a) && IsDigits(b) && s == a + "." + b ensures UnsignedDecimal(s).Some? {
      DecimalIsItsDigits(a, b);
    }
    if UnsignedDecimal(s).Some? {
      var point := PointIndex(s);
      if point == |s| { assert s[..point] == s; } else { PointSplits(s); }
      assert s[0] == s[..point][0];
    }
  }

  /** The three words find the stored value they name, and the string of the same spelling. */
  lemma WordsFindTheirValues(payload: map<string, Json>, name: string, v: Json, read: Reading)
    ensures PayloadMatches(payload[name := v], (name, "true"), read) <==> v == Str("true") || v == Bool(true)
    ensures PayloadMatches(payload[name := v], (name, "false"), read) <==> v == Str("false") || v == Bool(false)
    ensures PayloadMatches(payload[name := v], (name, "null"), read) <==> v == Str("null") || v == Null
  {
  }

  /** Any other text that is no number finds only the string; a payload without the name is never found. */
  lemma OtherTextsFindTheString(payload: map<string, Json>, name: string, text: string, v: Json, read: Reading)
    requires text != "true" && text != "false" && text != "null" && SignedDecimal(text).None?
    ensures PayloadMatches(payload[name := v], (name, text), read) <==> v == Str(text)
    ensures !PayloadMatches(payload - {name}, (name, text), read)
  {
  }

  /** Above 2 to the 53rd a double holds even numbers only, and a tie goes to the multiple of four. */
  ghost predicate RoundsTiesToEven(read: Reading) {
    forall n: int :: 0x20_0000_0000_0000 <= n <= 0x40_0000_0000_0000 && n % 4 == 1 ==> read(n as real) == Some((n - 1) as real)
  }

  /** The text of a whole number. */
  function Decimal(n: nat): (s: string)
    ensures IsDigits(s)
  {
    var last := [('0' as int + n % 10) as char];
    if n < 10 then last else Decimal(n / 10) + last
  }

  lemma {:induction false} DecimalRoundTrip(n: nat)
    ensures DigitsValue(Decimal(n)) == n
  {
    var s := Decimal(n);
    if n >= 10 {
      DecimalRoundTrip(n / 10);
      assert s[..|s| - 1] == Decimal(n / 10);
    }
  }

  lemma DecimalIsRead(n: nat)
    ensures SignedDecimal(Decimal(n)) == Some(n as real)
  {
    var s := Decimal(n);
    assert IsDigits(s);
    DecimalRoundTrip(n);
    DigitsHaveNoPoint(s);
    assert s[..|s|] == s;
  }

  /** Every second odd number above 2 to the 53rd is not found by its own text, which finds the number before it. */
  lemma LongNumbersAreNotFoundByTheirText(payload: map<string, Json>, name: string, n: nat, read: Reading)
    requires RoundsTiesToEven(read) && 0x20_0000_0000_0000 <= n <= 0x40_0000_0000_0000 && n % 4 == 1
    ensures !PayloadMatches(payload[name := Num(n as real)], (name, Decimal(n)), read)
    ensures PayloadMatches(payload[name := Num((n - 1) as real)], (name, Decimal(n)), read)
  {
    DecimalIsRead(n);
    NumberIsFoundIffReadAsIt(payload, name, Decimal(n), n as real, read);
    hide PayloadMatches, Decimal;
    var nearest := (n - 1) as real;
    assert read(n as real) == Some(nearest) && nearest != n as real;
  }
}
