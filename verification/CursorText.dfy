/**
 * The cursor a client sends back: a timestamp and an id joined by a bar, as UTF-8, in base64url without padding
 * (section 5 of RFC 4648).
 */
module CursorText {
  import opened Options

  type Byte = b: int | 0 <= b < 256

  type Sextet = s: int | 0 <= s < 64

  // Base64url.

  function Letter(s: Sextet): char {
    if s < 26 then ('A' as int + s) as char
    else if s < 52 then ('a' as int + (s - 26)) as char
    else if s < 62 then ('0' as int + (s - 52)) as char
    else if s == 62 then '-'
    else '_'
  }

  predicate IsUrlSafe(c: char) {
    'A' <= c <= 'Z' || 'a' <= c <= 'z' || '0' <= c <= '9' || c == '-' || c == '_'
  }

  /** The decoder also takes the standard alphabet's last two letters. */
  function ValueOf(c: char): Option<Sextet> {
    if 'A' <= c <= 'Z' then Some((c as int) - ('A' as int))
    else if 'a' <= c <= 'z' then Some((c as int) - ('a' as int) + 26)
    else if '0' <= c <= '9' then Some((c as int) - ('0' as int) + 52)
    else if c == '-' || c == '+' then Some(62)
    else if c == '_' || c == '/' then Some(63)
    else None
  }

  // Three bytes are four sextets.

  function First(a: Byte): Sextet { a / 4 }

  function Second(a: Byte, b: Byte): Sextet { a % 4 * 16 + b / 16 }

  function Third(b: Byte, c: Byte): Sextet { b % 16 * 4 + c / 64 }

  function Fourth(c: Byte): Sextet { c % 64 }

  function One(s: Sextet, t: Sextet): Byte { s * 4 + t / 16 }

  function Two(t: Sextet, u: Sextet): Byte { t % 16 * 16 + u / 4 }

  function Three(u: Sextet, v: Sextet): Byte { u % 4 * 64 + v }

  lemma ThreeBytesComeBack(a: Byte, b: Byte, c: Byte)
    ensures One(First(a), Second(a, b)) == a
    ensures Two(Second(a, b), Third(b, c)) == b
    ensures Three(Third(b, c), Fourth(c)) == c
  {
  }

  function Sextets(bytes: seq<Byte>): seq<Sextet> {
    if bytes == [] then []
    else if |bytes| == 1 then [First(bytes[0]), Second(bytes[0], 0)]
    else if |bytes| == 2 then [First(bytes[0]), Second(bytes[0], bytes[1]), Third(bytes[1], 0)]
    else
      [First(bytes[0]), Second(bytes[0], bytes[1]), Third(bytes[1], bytes[2]), Fourth(bytes[2])] + Sextets(bytes[3..])
  }

  function Bytes(sextets: seq<Sextet>): seq<Byte> {
    if |sextets| < 2 then []
    else if |sextets| == 2 then [One(sextets[0], sextets[1])]
    else if |sextets| == 3 then [One(sextets[0], sextets[1]), Two(sextets[1], sextets[2])]
    else
      [One(sextets[0], sextets[1]), Two(sextets[1], sextets[2]), Three(sextets[2], sextets[3])] + Bytes(sextets[4..])
  }

  function Letters(sextets: seq<Sextet>): string {
    if sextets == [] then "" else [Letter(sextets[0])] + Letters(sextets[1..])
  }

  /** The decoder stops at a padding sign and skips every other foreign character. */
  function Values(text: string): seq<Sextet> {
    if text == "" || text[0] == '=' then []
    else if ValueOf(text[0]).Some? then [ValueOf(text[0]).value] + Values(text[1..])
    else Values(text[1..])
  }

  lemma LetterHasItsValue(s: Sextet)
    ensures ValueOf(Letter(s)) == Some(s) && IsUrlSafe(Letter(s))
  {
  }

  lemma {:induction false} ValuesOfLetters(sextets: seq<Sextet>)
    ensures Values(Letters(sextets)) == sextets
  {
    if sextets != [] {
      LetterHasItsValue(sextets[0]);
      ValuesOfLetters(sextets[1..]);
    }
  }

  lemma BytesOfFour(s: Sextet, t: Sextet, u: Sextet, v: Sextet, rest: seq<Sextet>)
    ensures Bytes([s, t, u, v] + rest) == [One(s, t), Two(t, u), Three(u, v)] + Bytes(rest)
  {
    hide One, Two, Three;
    assert ([s, t, u, v] + rest)[4..] == rest;
  }

  lemma SextetsOfThree(a: Byte, b: Byte, c: Byte, rest: seq<Byte>)
    ensures Sextets([a, b, c] + rest) == [First(a), Second(a, b), Third(b, c), Fourth(c)] + Sextets(rest)
  {
    hide First, Second, Third, Fourth;
    assert ([a, b, c] + rest)[3..] == rest;
  }

  lemma TailOfOne(a: Byte)
    ensures Bytes(Sextets([a])) == [a]
  {
    hide First, Second, Third, Fourth, One, Two, Three;
    ThreeBytesComeBack(a, 0, 0);
    assert Sextets([a]) == [First(a), Second(a, 0)];
    hide Sextets;
    assert Bytes([First(a), Second(a, 0)]) == [One(First(a), Second(a, 0))];
  }

  lemma TailOfTwo(a: Byte, b: Byte)
    ensures Bytes(Sextets([a, b])) == [a, b]
  {
    hide First, Second, Third, Fourth, One, Two, Three;
    ThreeBytesComeBack(a, b, 0);
    assert Sextets([a, b]) == [First(a), Second(a, b), Third(b, 0)];
    hide Sextets;
    assert Bytes([First(a), Second(a, b), Third(b, 0)]) == [One(First(a), Second(a, b)), Two(Second(a, b), Third(b, 0))];
  }

  lemma ShortBytesComeBack(bytes: seq<Byte>)
    requires |bytes| < 3
    ensures Bytes(Sextets(bytes)) == bytes
  {
    if |bytes| == 1 {
      TailOfOne(bytes[0]);
      assert bytes == [bytes[0]];
    } else if |bytes| == 2 {
      TailOfTwo(bytes[0], bytes[1]);
      assert bytes == [bytes[0], bytes[1]];
    } else {
      assert bytes == [] && Sextets([]) == [] && Bytes([]) == [];
    }
  }

  lemma {:induction false} BytesOfSextets(bytes: seq<Byte>)
    ensures Bytes(Sextets(bytes)) == bytes
  {
    hide First, Second, Third, Fourth, One, Two, Three, Bytes, Sextets;
    if |bytes| < 3 {
      ShortBytesComeBack(bytes);
    } else {
      var a, b, c, rest := bytes[0], bytes[1], bytes[2], bytes[3..];
      assert bytes == [a, b, c] + rest;
      ThreeBytesComeBack(a, b, c);
      SextetsOfThree(a, b, c, rest);
      BytesOfFour(First(a), Second(a, b), Third(b, c), Fourth(c), Sextets(rest));
      BytesOfSextets(rest);
    }
  }

  /** Base64url loses no byte, and its text needs no escaping in a URL. */
  lemma Base64RoundTrip(bytes: seq<Byte>)
    ensures Bytes(Values(Letters(Sextets(bytes)))) == bytes
    ensures forall c :: c in Letters(Sextets(bytes)) ==> IsUrlSafe(c)
  {
    ValuesOfLetters(Sextets(bytes));
    BytesOfSextets(bytes);
    LettersAreUrlSafe(Sextets(bytes));
  }

  lemma {:induction false} LettersAreUrlSafe(sextets: seq<Sextet>)
    ensures forall c :: c in Letters(sextets) ==> IsUrlSafe(c)
  {
    if sextets != [] {
      LetterHasItsValue(sextets[0]);
      LettersAreUrlSafe(sextets[1..]);
    }
  }

  // UTF-8.

  const REPLACEMENT := '\U{FFFD}'

  /** A byte that continues a character: six bits. */
  function Continuation(n: nat): Byte { 0x80 + n % 64 }

  function EncodeChar(c: char): seq<Byte> {
    var n := c as int;
    if n < 0x80 then [n]
    else if n < 0x800 then [Lead(0xC0, n / 64), Continuation(n)]
    else if n < 0x10000 then [Lead(0xE0, n / 64 / 64), Continuation(n / 64), Continuation(n)]
    else [Lead(0xF0, n / 64 / 64 / 64), Continuation(n / 64 / 64), Continuation(n / 64), Continuation(n)]
  }

  function Lead(mark: Byte, bits: nat): Byte {
    if mark + bits < 256 then mark + bits else mark
  }

  function Encode(s: string): seq<Byte> {
    if s == "" then [] else EncodeChar(s[0]) + Encode(s[1..])
  }

  /** How many bytes must follow this first byte; none for a byte that cannot come first. */
  function Needed(first: Byte): nat {
    if 0xC2 <= first <= 0xDF then 1 else if 0xE0 <= first <= 0xEF then 2 else if 0xF0 <= first <= 0xF4 then 3 else 0
  }

  /**
   * The second byte's range is narrower after some first bytes: no overlong forms, no surrogates, no
   * value too large.
   */
  predicate Follows(first: Byte, position: nat, b: Byte) {
    var low := if position == 1 && first == 0xE0 then 0xA0 else if position == 1 && first == 0xF0 then 0x90 else 0x80;
    var high := if position == 1 && first == 0xED then 0x9F else if position == 1 && first == 0xF4 then 0x8F else 0xBF;
    low <= b <= high
  }

  /** How many of the needed bytes are there. */
  function Present(bytes: seq<Byte>, needed: nat): nat
    requires bytes != []
    ensures Present(bytes, needed) <= needed && Present(bytes, needed) < |bytes|
  {
    if needed == 0 || |bytes| < 2 || !Follows(bytes[0], 1, bytes[1]) then 0
    else if needed == 1 || |bytes| < 3 || !Follows(bytes[0], 2, bytes[2]) then 1
    else if needed == 2 || |bytes| < 4 || !Follows(bytes[0], 3, bytes[3]) then 2
    else 3
  }

  function Bits(b: int): int { b - 0x80 }

  function CodeOf(bytes: seq<Byte>, needed: nat): int
    requires 1 <= needed <= 3 && |bytes| > needed
  {
    var lead: int := bytes[0];
    if needed == 1 then (lead - 0xC0) * 64 + Bits(bytes[1])
    else if needed == 2 then (lead - 0xE0) * 4096 + Bits(bytes[1]) * 64 + Bits(bytes[2])
    else (lead - 0xF0) * 262144 + Bits(bytes[1]) * 4096 + Bits(bytes[2]) * 64 + Bits(bytes[3])
  }

  predicate IsScalar(n: int) {
    0 <= n < 0xD800 || 0xE000 <= n < 0x11_0000
  }

  lemma CompleteSequenceIsAScalar(bytes: seq<Byte>)
    requires bytes != [] && Needed(bytes[0]) > 0 && Present(bytes, Needed(bytes[0])) == Needed(bytes[0])
    ensures IsScalar(CodeOf(bytes, Needed(bytes[0])))
  {
  }

  /** Broken input becomes replacement characters, as in the decoder of the Encoding Standard. */
  function Decode(bytes: seq<Byte>): string {
    if bytes == [] then ""
    else if bytes[0] < 0x80 then [bytes[0] as char] + Decode(bytes[1..])
    else
      var needed := Needed(bytes[0]);
      var present := Present(bytes, needed);
      if needed == 0 || present < needed then [REPLACEMENT] + Decode(bytes[1 + present..])
      else
        CompleteSequenceIsAScalar(bytes);
        [CodeOf(bytes, needed) as char] + Decode(bytes[1 + needed..])
  }

  lemma DecodeFirst(c: char, rest: seq<Byte>)
    ensures Decode(EncodeChar(c) + rest) == [c] + Decode(rest)
  {
    var n, bytes := c as int, EncodeChar(c) + rest;
    assert IsScalar(n);
    var k := |EncodeChar(c)|;
    assert bytes[k..] == rest;
    if n >= 0x80 {
      assert Needed(bytes[0]) == k - 1 && Present(bytes, k - 1) == k - 1 && CodeOf(bytes, k - 1) == n by {
        LongForm(c, rest);
      }
    }
  }

  lemma LongForm(c: char, rest: seq<Byte>)
    requires c as int >= 0x80
    ensures var bytes, k := EncodeChar(c) + rest, |EncodeChar(c)|;
      2 <= k <= 4 && Needed(bytes[0]) == k - 1 && Present(bytes, k - 1) == k - 1 && CodeOf(bytes, k - 1) == c as int
  {
    var n := c as int;
    if n < 0x800 { TwoBytes(n, rest); } else if n < 0x10000 { ThreeBytes(n, rest); } else { FourBytes(n, rest); }
  }

  lemma TwoBytes(n: nat, rest: seq<Byte>)
    requires 0x80 <= n < 0x800
    ensures var bytes := [Lead(0xC0, n / 64), Continuation(n)] + rest;
      Needed(bytes[0]) == 1 && Present(bytes, 1) == 1 && CodeOf(bytes, 1) == n
  {
  }

  lemma ThreeBytes(n: nat, rest: seq<Byte>)
    requires 0x800 <= n < 0x10000 && IsScalar(n)
    ensures var bytes := [Lead(0xE0, n / 64 / 64), Continuation(n / 64), Continuation(n)] + rest;
      Needed(bytes[0]) == 2 && Present(bytes, 2) == 2 && CodeOf(bytes, 2) == n
  {
    var q := n / 64;
    assert n == q * 64 + n % 64 && q == q / 64 * 64 + q % 64;
  }

  lemma FourBytes(n: nat, rest: seq<Byte>)
    requires 0x10000 <= n < 0x11_0000
    ensures var bytes := [Lead(0xF0, n / 64 / 64 / 64), Continuation(n / 64 / 64), Continuation(n / 64), Continuation(n)] + rest;
      Needed(bytes[0]) == 3 && Present(bytes, 3) == 3 && CodeOf(bytes, 3) == n
  {
    var q := n / 64;
    var r := q / 64;
    assert n == q * 64 + n % 64 && q == r * 64 + q % 64 && r == r / 64 * 64 + r % 64;
  }

  lemma {:induction false} Utf8RoundTrip(s: string)
    ensures Decode(Encode(s)) == s
  {
    if s != "" {
      DecodeFirst(s[0], Encode(s[1..]));
      Utf8RoundTrip(s[1..]);
    }
  }

  // The cursor.

  datatype Cursor = Cursor(timestamp: string, id: string)

  function EncodeCursor(c: Cursor): string {
    Letters(Sextets(Encode(c.timestamp + "|" + c.id)))
  }

  /** The first bar, or the length of the text. */
  function IndexOfBar(s: string): (i: nat)
    ensures i <= |s|
  {
    if s == "" || s[0] == '|' then 0 else 1 + IndexOfBar(s[1..])
  }

  function Split(decoded: string, isDate: string -> bool): Option<Cursor> {
    var at := IndexOfBar(decoded);
    if at == |decoded| || at == 0 then None
    else if decoded[at + 1..] == "" || !isDate(decoded[..at]) then None
    else Some(Cursor(decoded[..at], decoded[at + 1..]))
  }

  function DecodeCursor(raw: string, isDate: string -> bool): Option<Cursor> {
    Split(Decode(Bytes(Values(raw))), isDate)
  }

  lemma {:induction false} FirstBar(a: string, b: string)
    ensures IndexOfBar(a + "|" + b) <= |a|
    ensures IndexOfBar(a + "|" + b) == |a| <==> '|' !in a
  {
    if a != "" {
      assert (a + "|" + b)[1..] == a[1..] + "|" + b;
      FirstBar(a[1..], b);
      assert a == [a[0]] + a[1..];
    }
  }

  /**
   * A cursor comes back as it was issued exactly when its timestamp is a date without a bar and neither
   * part is empty.
   */
  lemma CursorRoundTripIff(c: Cursor, isDate: string -> bool)
    ensures DecodeCursor(EncodeCursor(c), isDate) == Some(c)
       <==> c.timestamp != "" && c.id != "" && '|' !in c.timestamp && isDate(c.timestamp)
  {
    var text := c.timestamp + "|" + c.id;
    Base64RoundTrip(Encode(text));
    Utf8RoundTrip(text);
    FirstBar(c.timestamp, c.id);
    hide Decode, Encode, Letters, Sextets, Bytes, Values, IndexOfBar;
    var at := IndexOfBar(text);
    if at == |c.timestamp| {
      assert text[..at] == c.timestamp && text[at + 1..] == c.id;
    } else {
      assert |text[..at]| < |c.timestamp|;
    }
  }

  /**
   * Whatever text a client sends, a decoded cursor has a date and an id, split at the first bar of the
   * decoded text.
   */
  lemma DecodedCursorIsWellFormed(raw: string, isDate: string -> bool)
    requires DecodeCursor(raw, isDate).Some?
    ensures var c := DecodeCursor(raw, isDate).value;
      && isDate(c.timestamp) && c.id != "" && '|' !in c.timestamp
      && c.timestamp + "|" + c.id == Decode(Bytes(Values(raw)))
      && DecodeCursor(EncodeCursor(c), isDate) == Some(c)
  {
    var decoded := Decode(Bytes(Values(raw)));
    var c := DecodeCursor(raw, isDate).value;
    hide Decode, Bytes, Values;
    BarSplits(decoded);
    CursorRoundTripIff(c, isDate);
  }

  lemma {:induction false} BarSplits(s: string)
    requires IndexOfBar(s) < |s|
    ensures var at := IndexOfBar(s); s == s[..at] + "|" + s[at + 1..] && '|' !in s[..at]
  {
    if s[0] != '|' {
      BarSplits(s[1..]);
      var at := IndexOfBar(s);
      assert s[..at] == [s[0]] + s[1..][..at - 1];
    }
  }
}
