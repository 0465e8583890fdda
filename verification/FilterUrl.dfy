/**
 * The events list's filters as URL query parameters, written and read back.
 */
module FilterUrl {
  import opened Collections
  import opened Keyset
  import opened Options
  import opened TextOrder

  // Text.

  predicate IsSpace(c: char) {
    c in {' ', '\t', '\n', '\r', '\U{B}', '\U{C}', '\U{A0}', '\U{FEFF}',
          '\U{2028}', '\U{2029}', '\U{3000}', '\U{1680}', '\U{202F}', '\U{205F}'}
    || '\U{2000}' <= c <= '\U{200A}'
  }

  /** The blanks and line ends that trimming takes off, by code point. */
  lemma SpacesAre(c: char)
    ensures IsSpace(c) <==> var n := c as int;
      || 9 <= n <= 13 || n == 32 || n == 160 || n == 5760 || 8192 <= n <= 8202 || n == 8232 || n == 8233 || n == 8239
      || n == 8287 || n == 12288 || n == 65279
  {
  }

  function TrimStart(s: string): string {
    if s != "" && IsSpace(s[0]) then TrimStart(s[1..]) else s
  }

  function TrimEnd(s: string): string {
    if s != "" && IsSpace(s[|s| - 1]) then TrimEnd(s[..|s| - 1]) else s
  }

  function Trim(s: string): string {
    TrimEnd(TrimStart(s))
  }

  predicate IsTrimmed(s: string) {
    s == "" || (!IsSpace(s[0]) && !IsSpace(s[|s| - 1]))
  }

  lemma {:induction false} TrimStartIsClean(s: string)
    ensures TrimStart(s) == "" || !IsSpace(TrimStart(s)[0])
    ensures forall c :: c in TrimStart(s) ==> c in s
  {
    if s != "" && IsSpace(s[0]) { TrimStartIsClean(s[1..]); }
  }

  lemma {:induction false} TrimEndIsClean(s: string)
    ensures TrimEnd(s) <= s
    ensures TrimEnd(s) == "" || !IsSpace(TrimEnd(s)[|TrimEnd(s)| - 1])
  {
    if s != "" && IsSpace(s[|s| - 1]) { TrimEndIsClean(s[..|s| - 1]); }
  }

  lemma TrimIsClean(s: string)
    ensures IsTrimmed(Trim(s)) && forall c :: c in Trim(s) ==> c in s
    ensures IsTrimmed(s) ==> Trim(s) == s
  {
    TrimStartIsClean(s);
    TrimEndIsClean(TrimStart(s));
  }

  /** The pieces between commas. */
  function Split(s: string): seq<string> {
    if s == "" then [""]
    else if s[0] == ',' then [""] + Split(s[1..])
    else
      var rest := Split(s[1..]);
      if rest == [] then [[s[0]]] else [[s[0]] + rest[0]] + rest[1..]
  }

  lemma {:induction false} SplitHasNoComma(s: string)
    ensures Split(s) != [] && forall i :: 0 <= i < |Split(s)| ==> ',' !in Split(s)[i]
  {
    if s != "" { SplitHasNoComma(s[1..]); }
  }

  lemma {:induction false} SplitOfOne(s: string)
    requires ',' !in s
    ensures Split(s) == [s]
  {
    if s != "" {
      SplitOfOne(s[1..]);
      assert s == [s[0]] + s[1..];
    }
  }

  // Lists of values.

  function NonEmptyTrimmed(parts: seq<string>): seq<string> {
    if parts == [] then []
    else (if Trim(parts[0]) == "" then [] else [Trim(parts[0])]) + NonEmptyTrimmed(parts[1..])
  }

  function Values(entries: seq<string>): seq<string> {
    if entries == [] then [] else NonEmptyTrimmed(Split(entries[0])) + Values(entries[1..])
  }

  function Insert(v: string, sorted: seq<string>): seq<string> {
    if sorted == [] then [v]
    else if Less(sorted[0], v) then [sorted[0]] + Insert(v, sorted[1..])
    else [v] + sorted
  }

  function Sort(values: seq<string>): seq<string> {
    if values == [] then [] else Insert(values[0], Sort(values[1..]))
  }

  /** A value that survives the URL. */
  predicate IsPlain(v: string) {
    v != "" && IsTrimmed(v) && ',' !in v
  }

  ghost predicate AllPlain(values: seq<string>) {
    forall v :: v in values ==> IsPlain(v)
  }

  predicate Sorted(values: seq<string>) {
    forall i, j :: 0 <= i < j < |values| ==> Less(values[i], values[j])
  }

  lemma {:induction false} NonEmptyTrimmedArePlain(parts: seq<string>)
    requires forall i :: 0 <= i < |parts| ==> ',' !in parts[i]
    ensures AllPlain(NonEmptyTrimmed(parts))
  {
    if parts != [] {
      TrimIsClean(parts[0]);
      NonEmptyTrimmedArePlain(parts[1..]);
    }
  }

  lemma {:induction false} ValuesArePlain(entries: seq<string>)
    ensures AllPlain(Values(entries))
  {
    if entries != [] {
      SplitHasNoComma(entries[0]);
      NonEmptyTrimmedArePlain(Split(entries[0]));
      ValuesArePlain(entries[1..]);
    }
  }

  lemma {:induction false} PlainValuesStay(values: seq<string>)
    requires AllPlain(values)
    ensures Values(values) == values
  {
    if values != [] {
      assert values[0] in values;
      SplitOfOne(values[0]);
      TrimIsClean(values[0]);
      assert forall v :: v in values[1..] ==> v in values;
      PlainValuesStay(values[1..]);
      assert NonEmptyTrimmed([values[0]]) == [values[0]];
      assert values == [values[0]] + values[1..];
    }
  }

  lemma {:induction false} InsertSorts(v: string, sorted: seq<string>)
    requires Sorted(sorted) && v !in sorted
    ensures Sorted(Insert(v, sorted)) && forall w :: w in Insert(v, sorted) <==> w == v || w in sorted
  {
    if sorted != [] {
      assert sorted == [sorted[0]] + sorted[1..];
      LessIsTotal(sorted[0], v);
      if Less(sorted[0], v) {
        InsertSorts(v, sorted[1..]);
        var rest := Insert(v, sorted[1..]);
        forall i | 0 <= i < |rest| ensures Less(sorted[0], rest[i]) {
          assert rest[i] in rest;
          if rest[i] != v { assert rest[i] in sorted[1..]; }
        }
      } else {
        forall i | 0 <= i < |sorted| ensures Less(v, sorted[i]) {
          if i > 0 { LessIsTransitive(v, sorted[0], sorted[i]); }
        }
      }
    }
  }

  lemma {:induction false} SortSorts(values: seq<string>)
    requires AllDistinct(values)
    ensures Sorted(Sort(values)) && forall v :: v in Sort(values) <==> v in values
  {
    if values != [] {
      SortSorts(values[1..]);
      assert values[0] !in values[1..];
      InsertSorts(values[0], Sort(values[1..]));
      assert values == [values[0]] + values[1..];
    }
  }

  lemma {:induction false} SortedStays(values: seq<string>)
    requires Sorted(values)
    ensures Sort(values) == values && AllDistinct(values)
  {
    forall i, j | 0 <= i < j < |values| ensures values[i] != values[j] { LessIsIrreflexive(values[i]); }
    if values != [] {
      SortedStays(values[1..]);
      if |values| > 1 {
        LessIsAsymmetric(values[0], values[1]);
        assert values[1..][0] == values[1];
      }
      assert values == [values[0]] + values[1..];
    }
  }

  function ReadValues(entries: seq<string>): seq<string> {
    Sort(Distinct(Values(entries)))
  }

  ghost predicate IsCanonicalList(values: seq<string>) {
    AllPlain(values) && Sorted(values)
  }

  lemma ReadValuesIsCanonical(entries: seq<string>)
    ensures IsCanonicalList(ReadValues(entries))
  {
    ValuesArePlain(entries);
    DistinctIsTheSet(Values(entries));
    SortSorts(Distinct(Values(entries)));
  }

  lemma CanonicalListStays(values: seq<string>)
    requires IsCanonicalList(values)
    ensures ReadValues(values) == values
  {
    PlainValuesStay(values);
    SortedStays(values);
    DistinctIsTheSet(values);
  }

  // Numbers.

  predicate IsDigit(c: char) { '0' <= c <= '9' }

  function Digit(d: nat): char
    requires d < 10
  {
    ('0' as int + d) as char
  }

  function DigitValue(c: char): nat
    requires IsDigit(c)
  {
    (c as int) - ('0' as int)
  }

  function Decimal(n: nat): string {
    if n < 10 then [Digit(n)] else Decimal(n / 10) + [Digit(n % 10)]
  }

  function LeadingDigits(s: string): string {
    if s != "" && IsDigit(s[0]) then [s[0]] + LeadingDigits(s[1..]) else ""
  }

  function ValueOf(digits: string): nat
    requires forall c :: c in digits ==> IsDigit(c)
  {
    if digits == "" then 0
    else
      assert digits[|digits| - 1] in digits;
      ValueOf(digits[..|digits| - 1]) * 10 + DigitValue(digits[|digits| - 1])
  }

  lemma {:induction false} LeadingDigitsAreDigits(s: string)
    ensures forall c :: c in LeadingDigits(s) ==> IsDigit(c)
    ensures (forall c :: c in s ==> IsDigit(c)) ==> LeadingDigits(s) == s
  {
    if s != "" {
      LeadingDigitsAreDigits(s[1..]);
      assert s == [s[0]] + s[1..];
    }
  }

  /** parseInt in base ten: leading space, a sign, and as many digits as there are. */
  function ParseInt(raw: string): Option<int> {
    var s := TrimStart(raw);
    var negative := s != "" && s[0] == '-';
    var digits := LeadingDigits(if s != "" && (s[0] == '-' || s[0] == '+') then s[1..] else s);
    LeadingDigitsAreDigits(if s != "" && (s[0] == '-' || s[0] == '+') then s[1..] else s);
    var value: int := ValueOf(digits);
    if digits == "" then None else Some(if negative then -value else value)
  }

  lemma {:induction false} DecimalReadsBack(n: nat)
    ensures Decimal(n) != "" && (forall c :: c in Decimal(n) ==> IsDigit(c)) && ValueOf(Decimal(n)) == n
  {
    if n >= 10 {
      DecimalReadsBack(n / 10);
      assert Decimal(n)[..|Decimal(n)| - 1] == Decimal(n / 10);
    }
  }

  lemma ParseIntOfDecimal(n: nat)
    ensures ParseInt(Decimal(n)) == Some(n)
  {
    DecimalReadsBack(n);
    var s := Decimal(n);
    assert s[0] in s;
    assert TrimStart(s) == s;
    LeadingDigitsAreDigits(s);
  }

  lemma {:induction false} LeadingDigitsStop(digits: string, rest: string)
    requires (forall c :: c in digits ==> IsDigit(c)) && (rest == "" || !IsDigit(rest[0]))
    ensures LeadingDigits(digits + rest) == digits
  {
    if digits == "" {
      assert digits + rest == rest;
    } else {
      assert digits[0] in digits && (digits + rest)[1..] == digits[1..] + rest;
      LeadingDigitsStop(digits[1..], rest);
      assert digits == [digits[0]] + digits[1..];
    }
  }

  lemma ParseAt(raw: string, body: string)
    requires raw != "" && !IsSpace(raw[0])
    requires if raw[0] == '-' || raw[0] == '+' then raw[1..] == body else raw == body
    requires LeadingDigits(body) != ""
    ensures (forall c :: c in LeadingDigits(body) ==> IsDigit(c))
      && ParseInt(raw) == Some(if raw[0] == '-' then -(ValueOf(LeadingDigits(body)) as int) else ValueOf(LeadingDigits(body)))
  {
    LeadingDigitsAreDigits(body);
    assert TrimStart(raw) == raw;
    hide LeadingDigits, ValueOf, TrimStart, IsSpace;
  }

  lemma StartsWithADigit(n: nat, rest: string)
    requires rest == "" || !IsDigit(rest[0])
    ensures var s := Decimal(n) + rest;
      s != "" && IsDigit(s[0]) && LeadingDigits(s) == Decimal(n) && Decimal(n) != ""
      && (forall c :: c in Decimal(n) ==> IsDigit(c)) && ValueOf(Decimal(n)) == n
  {
    DecimalReadsBack(n);
    LeadingDigitsStop(Decimal(n), rest);
    assert Decimal(n)[0] in Decimal(n);
  }

  /** A number is read up to the first character that is no digit. */
  lemma NumberIsRead(n: nat, rest: string)
    requires rest == "" || !IsDigit(rest[0])
    ensures ParseInt(Decimal(n) + rest) == Some(n)
  {
    hide ParseInt, Decimal, ValueOf, LeadingDigits;
    StartsWithADigit(n, rest);
    ParseAt(Decimal(n) + rest, Decimal(n) + rest);
  }

  /** A sign in front is read with it. */
  lemma SignedNumberIsRead(sign: char, n: int, rest: string)
    requires n >= 0 && (rest == "" || !IsDigit(rest[0])) && (sign == '-' || sign == '+')
    ensures ParseInt([sign] + (Decimal(n) + rest)) == Some(if sign == '-' then -n else n)
  {
    hide ParseInt, Decimal, ValueOf, LeadingDigits;
    StartsWithADigit(n, rest);
    var s := Decimal(n) + rest;
    var raw := [sign] + s;
    assert raw[1..] == s;
    ParseAt(raw, s);
  }

  /** Blanks in front are passed over; without a digit there is no number. */
  lemma BlanksArePassedOver(c: char, s: string)
    ensures IsSpace(c) ==> ParseInt([c] + s) == ParseInt(s)
    ensures ParseInt("") == ParseInt("-") == ParseInt("+") == None
    ensures !IsSpace(c) && !IsDigit(c) && c != '-' && c != '+' ==> ParseInt([c] + s) == None
  {
    assert ([c] + s)[1..] == s;
    assert TrimStart("-") == "-" && TrimStart("+") == "+" && "-"[1..] == "" && "+"[1..] == "";
  }

  // The state and the query.

  /** From 10^21 on, numbers are no longer printed as plain digits. */
  const PLAIN_LIMIT := 1_000_000_000_000_000_000_000

  type Offset = n: int | n < PLAIN_LIMIT

  /** A date object can be invalid; otherwise it is a number of milliseconds. */
  datatype Date = Invalid | Instant(ms: int)

  datatype FilterState = FilterState(
    services: seq<string>, payload: map<string, string>, types: seq<string>,
    correlationId: string, entityId: string, ownerId: string, from: Option<Date>, to: Option<Date>,
    offset: Offset, order: Order)

  /** Query parameters by name; `Payload(key)` is the name with the payload prefix before `key`. */
  datatype Param = Service | Type | CorrelationId | EntityId | OwnerId | From | To | OffsetParam | OrderParam | Payload(key: string)

  /** A parameter that is there has at least one value. */
  type Query = map<Param, seq<string>>

  predicate IsPayloadKey(key: string) {
    1 <= |key| <= 64 && forall c :: c in key ==> 'A' <= c <= 'Z' || 'a' <= c <= 'z' || IsDigit(c) || c == '_'
  }

  /** A payload key is one to sixty-four letters, digits and underscores. */
  lemma PayloadKeyIff(key: string)
    ensures IsPayloadKey(key) <==>
      && key != "" && |key| < 65
      && forall i :: 0 <= i < |key| ==>
           var n := key[i] as int; 48 <= n <= 57 || 65 <= n <= 90 || n == 95 || 97 <= n <= 122
  {
    forall i | 0 <= i < |key| ensures key[i] in key {}
  }

  function GetAll(q: Query, p: Param): seq<string> {
    if p in q then q[p] else []
  }

  function Get(q: Query, p: Param): Option<string> {
    if p in q && q[p] != [] then Some(q[p][0]) else None
  }

  /** Assigning null, or no values, leaves the parameter out of the URL. */
  function Put(q: Query, p: Param, values: seq<string>): Query {
    if values == [] then q - {p} else q[p := values]
  }

  function ScalarValues(value: string): seq<string> {
    if Trim(value) == "" then [] else [Trim(value)]
  }

  function DateValues(value: Option<Date>, iso: int -> string): seq<string> {
    if value.None? || value.value.Invalid? then [] else [iso(value.value.ms)]
  }

  function OffsetValues(offset: Offset): seq<string> {
    if offset > 0 then [Decimal(offset)] else []
  }

  function OrderValues(order: Order): seq<string> {
    if order.Desc? then [] else ["asc"]
  }

  /** What each parameter is set to; nothing for one that is left out. */
  function ValuesFor(s: FilterState, iso: int -> string, p: Param): seq<string> {
    match p
    case Service => s.services
    case Type => s.types
    case CorrelationId => ScalarValues(s.correlationId)
    case EntityId => ScalarValues(s.entityId)
    case OwnerId => ScalarValues(s.ownerId)
    case From => DateValues(s.from, iso)
    case To => DateValues(s.to, iso)
    case OffsetParam => OffsetValues(s.offset)
    case OrderParam => OrderValues(s.order)
    case Payload(key) => PayloadValues(s.payload, key)
  }

  function PayloadValues(payload: map<string, string>, key: string): seq<string> {
    if key in payload then [payload[key]] else []
  }

  /** Without filters, offset and order there is nothing in the URL. */
  lemma PlainStateHasAPlainUrl(iso: int -> string, p: Param)
    ensures ValuesFor(FilterState([], map[], [], "", "", "", None, None, 0, Desc), iso, p) == []
  {
  }

  ghost predicate IsPrinted(q: Query, s: FilterState, iso: int -> string) {
    NoneEmpty(q) && forall p :: GetAll(q, p) == ValuesFor(s, iso, p)
  }

  // Writing.

  predicate NoneEmpty(q: Query) {
    forall p :: p in q ==> q[p] != []
  }

  /** The order in which the parameters are written. */
  function Turn(p: Param): nat {
    match p
    case Service => 0
    case Payload(_) => 1
    case Type => 2
    case CorrelationId => 3
    case EntityId => 4
    case OwnerId => 5
    case From => 6
    case To => 7
    case OffsetParam => 8
    case OrderParam => 9
  }

  ghost predicate IsPrintedUpTo(q: Query, s: FilterState, iso: int -> string, turn: nat) {
    NoneEmpty(q) && forall p :: GetAll(q, p) == if Turn(p) < turn then ValuesFor(s, iso, p) else []
  }

  /** One `setRouterQuery...` call. */
  method Assign(target: Query, p: Param, values: seq<string>, ghost s: FilterState,
        ghost iso: int -> string) returns (q: Query)
    requires !p.Payload? && values == ValuesFor(s, iso, p) && IsPrintedUpTo(target, s, iso, Turn(p))
    ensures IsPrintedUpTo(q, s, iso, Turn(p) + 1)
  {
    hide ValuesFor;
    q := Put(target, p, values);
    assert forall r :: r != p ==> GetAll(q, r) == GetAll(target, r);
    assert GetAll(q, p) == values;
  }

  method SetPayload(target: Query, s: FilterState, ghost iso: int -> string) returns (q: Query)
    requires IsPrintedUpTo(target, s, iso, 1)
    ensures IsPrintedUpTo(q, s, iso, 2)
  {
    q := target;
    var left: set<string> := s.payload.Keys;
    assert forall k: string :: GetAll(target, Payload(k)) == [];
    while left != {}
      invariant left <= s.payload.Keys
      invariant NoneEmpty(q)
      invariant forall p: Param :: !p.Payload? ==> GetAll(q, p) == GetAll(target, p)
      invariant forall k: string :: GetAll(q, Payload(k)) == if k in left then [] else PayloadValues(s.payload, k)
      decreases left
    {
      var key :| key in left;
      q := q[Payload(key) := [s.payload[key]]];
      left := left - {key};
    }
  }

  method SetScalars(target: Query, s: FilterState, ghost iso: int -> string) returns (q: Query)
    requires IsPrintedUpTo(target, s, iso, 3)
    ensures IsPrintedUpTo(q, s, iso, 6)
  {
    hide IsPrintedUpTo, ScalarValues;
    q := Assign(target, CorrelationId, ScalarValues(s.correlationId), s, iso);
    q := Assign(q, EntityId, ScalarValues(s.entityId), s, iso);
    q := Assign(q, OwnerId, ScalarValues(s.ownerId), s, iso);
  }

  method SetDates(target: Query, s: FilterState, iso: int -> string) returns (q: Query)
    requires IsPrintedUpTo(target, s, iso, 6)
    ensures IsPrintedUpTo(q, s, iso, 8)
  {
    hide IsPrintedUpTo, DateValues;
    q := Assign(target, From, DateValues(s.from, iso), s, iso);
    q := Assign(q, To, DateValues(s.to, iso), s, iso);
  }

  method ToEventsListQueryParams(s: FilterState, iso: int -> string) returns (q: Query)
    ensures IsPrinted(q, s, iso)
  {
    var empty: Query := map[];
    assert IsPrintedUpTo(empty, s, iso, 0);
    hide IsPrintedUpTo, OffsetValues, OrderValues, IsPrinted;
    q := Assign(empty, Service, s.services, s, iso);
    q := SetPayload(q, s, iso);
    q := Assign(q, Type, s.types, s, iso);
    q := SetScalars(q, s, iso);
    q := SetDates(q, s, iso);
    q := Assign(q, OffsetParam, OffsetValues(s.offset), s, iso);
    q := Assign(q, OrderParam, OrderValues(s.order), s, iso);
    AllPrinted(q, s, iso);
  }

  lemma AllPrinted(q: Query, s: FilterState, iso: int -> string)
    requires IsPrintedUpTo(q, s, iso, 10)
    ensures IsPrinted(q, s, iso)
  {
    hide ValuesFor;
  }

  // Reading.

  function PayloadFilters(q: Query): map<string, string> {
    map p | p in q && p.Payload? && IsPayloadKey(p.key) && Get(q, p).GetOr("") != "" :: p.key := Get(q, p).GetOr("")
  }

  method ReadPayloadFilters(q: Query) returns (out: map<string, string>)
    ensures out == PayloadFilters(q)
  {
    out := map[];
    var left := q.Keys;
    while left != {}
      invariant left <= q.Keys
      invariant forall k :: k in out <==> k in PayloadFilters(q) && Payload(k) !in left
      invariant forall k :: k in out ==> out[k] == PayloadFilters(q)[k]
      decreases left
    {
      var raw :| raw in left;
      if raw.Payload? {
        var value := Get(q, raw).GetOr("");
        if IsPayloadKey(raw.key) && value != "" {
          out := out[raw.key := value];
        }
      }
      left := left - {raw};
    }
  }

  function ReadDate(q: Query, p: Param, date: string -> Option<int>): Option<Date> {
    var raw := Get(q, p).GetOr("");
    if raw == "" || date(raw).None? then None else Some(Instant(date(raw).value))
  }

  function ReadOffset(q: Query): Offset {
    var raw := Get(q, OffsetParam).GetOr("");
    if raw != "" && ParseInt(raw).Some? && 0 < ParseInt(raw).value < PLAIN_LIMIT then ParseInt(raw).value else 0
  }

  function ParseEventsListQuery(q: Query, date: string -> Option<int>): FilterState {
    FilterState(
      ReadValues(GetAll(q, Service)), PayloadFilters(q), ReadValues(GetAll(q, Type)),
      Get(q, CorrelationId).GetOr(""), Get(q, EntityId).GetOr(""), Get(q, OwnerId).GetOr(""),
      ReadDate(q, From, date), ReadDate(q, To, date), ReadOffset(q),
      if Get(q, OrderParam) == Some("asc") then Asc else Desc)
  }

  // Writing and reading back.

  /** What holds of `toISOString` and the date constructor. */
  ghost predicate DatesReadBack(iso: int -> string, date: string -> Option<int>) {
    forall ms :: iso(ms) != "" && date(iso(ms)) == Some(ms)
  }

  ghost predicate IsCanonical(s: FilterState) {
    && IsCanonicalList(s.services) && IsCanonicalList(s.types)
    && (forall k :: k in s.payload ==> IsPayloadKey(k) && s.payload[k] != "")
    && IsTrimmed(s.correlationId) && IsTrimmed(s.entityId) && IsTrimmed(s.ownerId)
    && s.from != Some(Invalid) && s.to != Some(Invalid)
    && s.offset >= 0
  }

  lemma PrintedScalar(q: Query, p: Param, value: string)
    requires GetAll(q, p) == ScalarValues(value)
    ensures Get(q, p).GetOr("") == Trim(value)
  {
  }

  lemma PrintedDate(q: Query, p: Param, value: Option<Date>, iso: int -> string, date: string -> Option<int>)
    requires GetAll(q, p) == DateValues(value, iso) && DatesReadBack(iso, date)
    ensures ReadDate(q, p, date) == if value == Some(Invalid) then None else value
  {
  }

  lemma PrintedOffset(q: Query, offset: Offset)
    requires GetAll(q, OffsetParam) == OffsetValues(offset)
    ensures ReadOffset(q) == if offset > 0 then offset else 0
  {
    if offset > 0 {
      ParseIntOfDecimal(offset);
      DecimalReadsBack(offset);
    }
  }

  lemma PrintedPayload(q: Query, payload: map<string, string>)
    requires forall k :: GetAll(q, Payload(k)) == PayloadValues(payload, k)
    ensures PayloadFilters(q) == map k | k in payload && IsPayloadKey(k) && payload[k] != "" :: payload[k]
  {
    var read, kept := PayloadFilters(q), map k | k in payload && IsPayloadKey(k) && payload[k] != "" :: payload[k];
    forall k
      ensures k in read <==> k in kept
      ensures k in read ==> read[k] == kept[k]
    {
      assert GetAll(q, Payload(k)) == PayloadValues(payload, k);
    }
  }

  /** What reading a printed state gives. */
  lemma ReadsBack(s: FilterState, q: Query, iso: int -> string, date: string -> Option<int>)
    requires IsPrinted(q, s, iso) && DatesReadBack(iso, date)
    ensures ParseEventsListQuery(q, date) == FilterState(
      ReadValues(s.services), map k | k in s.payload && IsPayloadKey(k) && s.payload[k] != "" :: s.payload[k], ReadValues(s.types),
      Trim(s.correlationId), Trim(s.entityId), Trim(s.ownerId),
      if s.from == Some(Invalid) then None else s.from, if s.to == Some(Invalid) then None else s.to,
      if s.offset > 0 then s.offset else 0, s.order)
  {
    hide ReadValues, Trim, PayloadFilters, ReadDate, ReadOffset, ScalarValues, DateValues, OffsetValues, DatesReadBack;
    assert forall p :: GetAll(q, p) == ValuesFor(s, iso, p);
    PrintedScalar(q, CorrelationId, s.correlationId);
    PrintedScalar(q, EntityId, s.entityId);
    PrintedScalar(q, OwnerId, s.ownerId);
    PrintedDate(q, From, s.from, iso, date);
    PrintedDate(q, To, s.to, iso, date);
    PrintedOffset(q, s.offset);
    forall k ensures GetAll(q, Payload(k)) == PayloadValues(s.payload, k) {
      assert GetAll(q, Payload(k)) == ValuesFor(s, iso, Payload(k));
    }
    PrintedPayload(q, s.payload);
    assert GetAll(q, OrderParam) == OrderValues(s.order);
  }

  /** A state comes back from its URL unchanged exactly when it is canonical. */
  lemma RoundTripIff(s: FilterState, q: Query, iso: int -> string, date: string -> Option<int>)
    requires IsPrinted(q, s, iso) && DatesReadBack(iso, date)
    ensures ParseEventsListQuery(q, date) == s <==> IsCanonical(s)
  {
    ReadsBack(s, q, iso, date);
    ReadIsCanonical(s, q, iso, date);
    if IsCanonical(s) {
      CanonicalListStays(s.services);
      CanonicalListStays(s.types);
      TrimIsClean(s.correlationId);
      TrimIsClean(s.entityId);
      TrimIsClean(s.ownerId);
      hide ReadValues, Trim, IsTrimmed, ParseEventsListQuery;
      assert (map k | k in s.payload && IsPayloadKey(k) && s.payload[k] != "" :: s.payload[k]) == s.payload;
    }
  }

  lemma ReadIsCanonical(s: FilterState, q: Query, iso: int -> string, date: string -> Option<int>)
    requires IsPrinted(q, s, iso) && DatesReadBack(iso, date)
    ensures IsCanonical(ParseEventsListQuery(q, date))
  {
    hide ReadValues, Trim, ParseEventsListQuery, IsPrinted, IsCanonicalList;
    ReadsBack(s, q, iso, date);
    ReadValuesIsCanonical(s.services);
    ReadValuesIsCanonical(s.types);
    TrimIsClean(s.correlationId);
    TrimIsClean(s.entityId);
    TrimIsClean(s.ownerId);
  }

  /** Whatever the state, after one trip through the URL further trips change nothing. */
  lemma SecondTripChangesNothing(s: FilterState, first: Query, second: Query, iso: int -> string,
        date: string -> Option<int>)
    requires DatesReadBack(iso, date) && IsPrinted(first, s, iso)
    requires IsPrinted(second, ParseEventsListQuery(first, date), iso)
    ensures ParseEventsListQuery(second, date) == ParseEventsListQuery(first, date)
  {
    hide IsPrinted, ParseEventsListQuery, IsCanonical;
    ReadIsCanonical(s, first, iso, date);
    RoundTripIff(ParseEventsListQuery(first, date), second, iso, date);
  }
}
