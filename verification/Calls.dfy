/**
 * Call history: a row per call, filled by events that may arrive twice and in any order, closed by an event, by a
 * sweep, or by the rule every reader applies to a call that has outlived any possible call.
 */
module Calls {
  import opened Collections
  import opened Keyset
  import opened Options

  type Id = string

  datatype Media = Audio | Video

  datatype Reason = Hangup | Declined | Missed | Busy | IceFailed | Expired

  // From an event's envelope to a projection.

  /** A payload value; a field that is not there reads as `Absent`. */
  datatype Json = Absent | Null | Bool(b: bool) | Number(n: real) | Text(s: string) | List(items: seq<Json>) | Object

  datatype Payload = Payload(
    callId: Json, conversationId: Json, callerId: Json, calleeId: Json, participantIds: Json, joinedIds: Json,
    media: Json, startedAt: Json, answeredAt: Json, reason: Json, durationSeconds: Json)

  datatype Envelope = Envelope(kind: string, timestamp: int, payload: Payload)

  datatype Projection = Projection(
    call: Id, conversation: Id, caller: Id, callee: Option<Id>, participants: seq<Id>, joined: seq<Id>,
    media: Media, startedAt: int, answeredAt: Option<int>, endedAt: Option<int>, endReason: Option<Reason>, duration: nat)

  function AsMedia(value: Json): Media {
    if value == Text("video") then Video else Audio
  }

  /** `expired` is not among them: no producer may claim it. */
  function AsEndReason(value: Json): Option<Reason> {
    if value == Text("hangup") then Some(Hangup)
    else if value == Text("declined") then Some(Declined)
    else if value == Text("missed") then Some(Missed)
    else if value == Text("busy") then Some(Busy)
    else if value == Text("ice_failed") then Some(IceFailed)
    else None
  }

  function OwnerIds(value: Json): seq<Id> {
    if value.List? then Texts(value.items) else []
  }

  function Texts(items: seq<Json>): seq<Id> {
    if items == [] then []
    else if items[0].Text? then [items[0].s] + Texts(items[1..])
    else Texts(items[1..])
  }

  predicate IsHex(c: char) {
    '0' <= c <= '9' || 'a' <= c <= 'f' || 'A' <= c <= 'F'
  }

  predicate IsUuid(s: string) {
    && |s| == 36
    && (forall i :: 0 <= i < 36 ==> if i in {8, 13, 18, 23} then s[i] == '-' else IsHex(s[i]))
    && '1' <= s[14] <= '5' && s[19] in "89abAB"
  }

  function TextOf(value: Json): Option<string> {
    if value.Text? then Some(value.s) else None
  }

  /** `date` reads a date text, or says it is none. */
  function Date(value: Json, date: string -> Option<int>): Option<int> {
    if value.Text? then date(value.s) else None
  }

  predicate IsUsable(p: Payload, date: string -> Option<int>) {
    && p.callId.Text? && IsUuid(p.callId.s) && p.conversationId.Text? && IsUuid(p.conversationId.s)
    && p.callerId.Text? && p.callerId.s != "" && Date(p.startedAt, date).Some?
    && ((p.calleeId.Text? && p.calleeId.s != "") || OwnerIds(p.participantIds) != [])
  }

  function Duration(value: Json): nat {
    if value.Number? && value.n > 0.0 then value.n.Floor else 0
  }

  function ToProjection(e: Envelope, date: string -> Option<int>): Option<Projection> {
    if e.kind !in ["call.started", "call.ended", "call.missed"] || !IsUsable(e.payload, date) then None
    else
      var p := e.payload;
      var ended := e.kind != "call.started";
      Some(Projection(
        p.callId.s, p.conversationId.s, p.callerId.s, TextOf(p.calleeId), OwnerIds(p.participantIds), OwnerIds(p.joinedIds),
        AsMedia(p.media), Date(p.startedAt, date).value, Date(p.answeredAt, date),
        if ended then Some(e.timestamp) else None,
        if ended then Some(AsEndReason(p.reason).GetOr(if e.kind == "call.missed" then Missed else Hangup)) else None,
        Duration(p.durationSeconds)))
  }

  /** What every projection read from an event satisfies. */
  predicate IsEvent(p: Projection) {
    p.endedAt.Some? == p.endReason.Some? && p.endReason != Some(Expired)
  }

  lemma {:induction false} TextsAreTheTexts(items: seq<Json>, s: string)
    ensures s in Texts(items) <==> Text(s) in items
  {
    if items != [] {
      TextsAreTheTexts(items[1..], s);
      assert items == [items[0]] + items[1..];
    }
  }

  /** A projection names its call and someone besides the caller, and carries an ending exactly for an ending event. */
  lemma ProjectionShape(e: Envelope, date: string -> Option<int>)
    requires ToProjection(e, date).Some?
    ensures var p := ToProjection(e, date).value;
      && IsEvent(p) && IsUuid(p.call) && IsUuid(p.conversation)
      && (p.callee.Some? || p.participants != [])
      && (p.endedAt.Some? <==> e.kind == "call.ended" || e.kind == "call.missed")
      && (forall o :: o in p.joined <==> e.payload.joinedIds.List? && Text(o) in e.payload.joinedIds.items)
  {
    var items := e.payload.joinedIds;
    if items.List? {
      forall o ensures o in Texts(items.items) <==> Text(o) in items.items { TextsAreTheTexts(items.items, o); }
    }
  }

  predicate IsHexText(s: string) {
    forall i :: 0 <= i < |s| ==> '0' <= s[i] <= '9' || 'a' <= s[i] <= 'f' || 'A' <= s[i] <= 'F'
  }

  /** Hexadecimal groups of 8, 4, 4, 4 and 12 digits, of version 1 to 5 and variant 8, 9, a or b. */
  predicate AreUuidGroups(a: string, b: string, c: string, d: string, e: string) {
    && |a| == 8 && |b| == |c| == |d| == 4 && |e| == 12
    && IsHexText(a) && IsHexText(b) && IsHexText(c) && IsHexText(d) && IsHexText(e)
    && '1' <= c[0] <= '5' && (d[0] == '8' || d[0] == '9' || d[0] == 'a' || d[0] == 'b' || d[0] == 'A' || d[0] == 'B')
  }

  function JoinedGroups(a: string, b: string, c: string, d: string, e: string): string {
    a + ['-'] + b + ['-'] + c + ['-'] + d + ['-'] + e
  }

  lemma GroupsMakeAUuid(a: string, b: string, c: string, d: string, e: string)
    requires AreUuidGroups(a, b, c, d, e)
    ensures IsUuid(JoinedGroups(a, b, c, d, e))
  {
    var s := JoinedGroups(a, b, c, d, e);
    assert s[..8] == a && s[9..13] == b && s[14..18] == c && s[19..23] == d && s[24..] == e;
    forall i | 0 <= i < 36 ensures if i in {8, 13, 18, 23} then s[i] == '-' else IsHex(s[i]) {
      if i < 8 { assert s[i] == a[i]; }
      else if 8 < i < 13 { assert s[i] == b[i - 9]; }
      else if 13 < i < 18 { assert s[i] == c[i - 14]; }
      else if 18 < i < 23 { assert s[i] == d[i - 19]; }
      else if 23 < i { assert s[i] == e[i - 24]; }
    }
    assert s[14] == c[0] && s[19] == d[0];
  }

  lemma HexPart(s: string, lo: nat, hi: nat)
    requires lo <= hi <= |s| && forall i :: lo <= i < hi ==> IsHex(s[i])
    ensures IsHexText(s[lo..hi])
  {
  }

  lemma UuidHasGroups(s: string)
    requires IsUuid(s)
    ensures AreUuidGroups(s[..8], s[9..13], s[14..18], s[19..23], s[24..])
    ensures s == JoinedGroups(s[..8], s[9..13], s[14..18], s[19..23], s[24..])
  {
    HexPart(s, 0, 8);
    HexPart(s, 9, 13);
    HexPart(s, 14, 18);
    HexPart(s, 19, 23);
    HexPart(s, 24, 36);
    assert s[24..] == s[24..36] && s[14..18][0] == s[14] && s[19..23][0] == s[19];
    hide IsHexText;
    assert s[8] == '-' && s[13] == '-' && s[18] == '-' && s[23] == '-';
  }

  /** The text is five groups joined by hyphens. */
  lemma UuidIsFiveGroups(s: string)
    ensures IsUuid(s) <==> exists a, b, c, d, e :: AreUuidGroups(a, b, c, d, e) && s == JoinedGroups(a, b, c, d, e)
  {
    if IsUuid(s) {
      UuidHasGroups(s);
    }
    hide IsUuid, AreUuidGroups, JoinedGroups;
    forall a, b, c, d, e | AreUuidGroups(a, b, c, d, e) && s == JoinedGroups(a, b, c, d, e) ensures IsUuid(s) {
      GroupsMakeAUuid(a, b, c, d, e);
    }
  }

  predicate NamesSomeone(value: Json) {
    value.Text? && value.s != ""
  }

  ghost predicate ListsAText(value: Json) {
    value.List? && exists s :: Text(s) in value.items
  }

  /** Exactly which events are read: three kinds, two uuids, a caller, a start, and someone who was rung. */
  lemma ReadIff(e: Envelope, date: string -> Option<int>)
    ensures ToProjection(e, date).Some? <==>
      && (e.kind == "call.started" || e.kind == "call.ended" || e.kind == "call.missed")
      && e.payload.callId.Text? && IsUuid(e.payload.callId.s)
      && e.payload.conversationId.Text? && IsUuid(e.payload.conversationId.s)
      && NamesSomeone(e.payload.callerId)
      && e.payload.startedAt.Text? && date(e.payload.startedAt.s).Some?
      && (NamesSomeone(e.payload.calleeId) || ListsAText(e.payload.participantIds))
  {
    var items := e.payload.participantIds;
    if items.List? { SomeTextIff(items.items); }
    hide IsUuid;
  }

  lemma SomeTextIff(items: seq<Json>)
    ensures Texts(items) != [] <==> exists s :: Text(s) in items
  {
    forall s ensures s in Texts(items) <==> Text(s) in items { TextsAreTheTexts(items, s); }
    if Texts(items) != [] { assert Text(Texts(items)[0]) in items; }
  }

  /** A duration is a positive number rounded down, and otherwise 0. */
  predicate IsDurationOf(d: nat, value: Json) {
    if value.Number? && value.n > 0.0 then d as real <= value.n < d as real + 1.0 else d == 0
  }

  /** Every value of a projection, from the event it was read from. */
  lemma ProjectionValues(e: Envelope, date: string -> Option<int>)
    requires ToProjection(e, date).Some?
    ensures var p, from := ToProjection(e, date).value, e.payload;
      && Text(p.call) == from.callId && Text(p.conversation) == from.conversationId && Text(p.caller) == from.callerId
      && (p.callee.Some? <==> from.calleeId.Text?) && (p.callee.Some? ==> Text(p.callee.value) == from.calleeId)
      && (forall o :: o in p.participants <==> from.participantIds.List? && Text(o) in from.participantIds.items)
      && (p.media == Video <==> from.media == Text("video"))
      && from.startedAt.Text? && date(from.startedAt.s) == Some(p.startedAt)
      && p.answeredAt == (if from.answeredAt.Text? then date(from.answeredAt.s) else None)
      && p.endedAt == (if e.kind == "call.started" then None else Some(e.timestamp))
      && IsDurationOf(p.duration, from.durationSeconds)
  {
    var items := e.payload.participantIds;
    if items.List? {
      forall o ensures o in Texts(items.items) <==> Text(o) in items.items { TextsAreTheTexts(items.items, o); }
    }
    hide IsUuid;
  }

  /** The accepted reasons, and what an ending without one of them is taken for. */
  lemma ReasonValues(e: Envelope, date: string -> Option<int>)
    requires ToProjection(e, date).Some?
    ensures var reason, from := ToProjection(e, date).value.endReason, e.payload.reason;
      && (e.kind == "call.started" ==> reason == None)
      && (e.kind != "call.started" && from == Text("hangup") ==> reason == Some(Hangup))
      && (e.kind != "call.started" && from == Text("declined") ==> reason == Some(Declined))
      && (e.kind != "call.started" && from == Text("missed") ==> reason == Some(Missed))
      && (e.kind != "call.started" && from == Text("busy") ==> reason == Some(Busy))
      && (e.kind != "call.started" && from == Text("ice_failed") ==> reason == Some(IceFailed))
      && (from !in {Text("hangup"), Text("declined"), Text("missed"), Text("busy"), Text("ice_failed")} ==>
            && (e.kind == "call.ended" ==> reason == Some(Hangup))
            && (e.kind == "call.missed" ==> reason == Some(Missed)))
  {
    hide IsUsable;
  }

  // The tables.

  datatype Row = Row(
    conversation: Id, caller: Id, callee: Option<Id>, media: Media, startedAt: int,
    answeredAt: Option<int>, endedAt: Option<int>, endReason: Option<Reason>, duration: nat)

  datatype Member = Member(call: Id, owner: Id)

  /** Calls, who was rung (and whether they joined), and each conversation's time of last activity. */
  datatype Db = Db(calls: map<Id, Row>, members: map<Member, bool>, activity: map<Id, int>)

  /** INTEGER holds no more. */
  const INT4_MAX := 2147483647

  function Coalesce<T>(a: Option<T>, b: Option<T>): Option<T> {
    if a.Some? then a else b
  }

  function Fresh(p: Projection): Row {
    Row(p.conversation, p.caller, p.callee, p.media, p.startedAt, p.answeredAt, p.endedAt, p.endReason, p.duration)
  }

  function Merge(r: Row, p: Projection): Row {
    r.(answeredAt := Coalesce(r.answeredAt, p.answeredAt),
       endedAt := Coalesce(r.endedAt, p.endedAt),
       endReason := Coalesce(r.endReason, p.endReason),
       duration := Max(r.duration, p.duration))
  }

  function UpsertCall(calls: map<Id, Row>, p: Projection): map<Id, Row> {
    calls[p.call := if p.call in calls then Merge(calls[p.call], p) else Fresh(p)]
  }

  function Named(p: Projection): set<Member> {
    set o | o in p.participants + p.joined :: Member(p.call, o)
  }

  function UpsertMembers(members: map<Member, bool>, p: Projection): map<Member, bool> {
    map m | m in members.Keys + Named(p) :: (m in members && members[m]) || (m.call == p.call && m.owner in p.joined)
  }

  function Touch(activity: map<Id, int>, c: Id, t: int): map<Id, int> {
    if c in activity then activity[c := Max(activity[c], t)] else activity
  }

  function LastInstant(p: Projection): int {
    p.endedAt.GetOr(p.startedAt)
  }

  datatype Result = Projected | ConversationGone | OutOfRange

  /** The write either happens as a whole or, in these two cases, not at all. */
  function Verdict(db: Db, p: Projection): Result {
    if p.duration > INT4_MAX then OutOfRange
    else if p.call !in db.calls && p.conversation !in db.activity then ConversationGone
    else Projected
  }

  function Project(db: Db, p: Projection): Db {
    if Verdict(db, p).Projected?
    then Db(UpsertCall(db.calls, p), UpsertMembers(db.members, p), Touch(db.activity, p.conversation, LastInstant(p)))
    else db
  }

  class CallStore {
    var calls: map<Id, Row>
    var members: map<Member, bool>
    var activity: map<Id, int>

    constructor (db: Db)
      ensures State() == db
    {
      calls, members, activity := db.calls, db.members, db.activity;
    }

    function State(): Db reads this {
      Db(calls, members, activity)
    }

    method InsertCall(p: Projection) returns (result: Result)
      modifies this`calls
      ensures result == Verdict(old(State()), p)
      ensures calls == if result.Projected? then UpsertCall(old(calls), p) else old(calls)
    {
      if p.duration > INT4_MAX { return OutOfRange; }
      if p.call in calls {
        var row := calls[p.call];
        if row.answeredAt.None? { row := row.(answeredAt := p.answeredAt); }
        if row.endedAt.None? { row := row.(endedAt := p.endedAt); }
        if row.endReason.None? { row := row.(endReason := p.endReason); }
        if row.duration < p.duration { row := row.(duration := p.duration); }
        calls := calls[p.call := row];
      } else {
        if p.conversation !in activity { return ConversationGone; }
        calls := calls[p.call := Fresh(p)];
      }
      result := Projected;
    }

    /** One transaction of three statements; a failure of the first rolls it back. */
    method ProjectCall(p: Projection) returns (result: Result)
      modifies this
      ensures State() == Project(old(State()), p) && result == Verdict(old(State()), p)
    {
      result := InsertCall(p);
      if !result.Projected? { return; }
      if p.participants != [] || p.joined != [] {
        members := UpsertMembers(members, p);
      } else {
        NobodyNamed(members, p);
      }
      if p.conversation in activity {
        var last := if p.endedAt.Some? then p.endedAt.value else p.startedAt;
        if activity[p.conversation] < last { activity := activity[p.conversation := last]; }
      }
    }

    /** Closes the calls that are too old to be running; says how many. */
    method SweepStaleCalls(lifetime: nat, now: int) returns (count: nat)
      modifies this`calls
      ensures State() == Sweep(old(State()), lifetime, now)
      ensures count == |Stale(old(calls), lifetime, now)|
    {
      var stale := Stale(calls, lifetime, now);
      count := |stale|;
      calls := map c | c in calls ::
        if c in stale then calls[c].(endedAt := Some(calls[c].startedAt + lifetime), endReason := Some(Expired)) else calls[c];
    }
  }

  lemma NobodyNamed(members: map<Member, bool>, p: Projection)
    requires p.participants == [] && p.joined == []
    ensures UpsertMembers(members, p) == members
  {
  }

  /** A written event is in the tables: its call, everyone it names, whoever joined, and its instant as activity. */
  lemma ProjectionIsRecorded(db: Db, p: Projection)
    requires Verdict(db, p).Projected?
    ensures var after := Project(db, p);
      && p.call in after.calls
      && (p.answeredAt.Some? ==> after.calls[p.call].answeredAt.Some?)
      && (p.endedAt.Some? ==> after.calls[p.call].endedAt.Some?)
      && p.duration <= after.calls[p.call].duration
      && (p.conversation in db.activity ==> p.conversation in after.activity && LastInstant(p) <= after.activity[p.conversation])
    ensures forall m :: Joined(Project(db, p).members, m) <==> Joined(db.members, m) || (m.call == p.call && m.owner in p.joined)
    ensures forall m :: m in Project(db, p).members <==>
      m in db.members || (m.call == p.call && (m.owner in p.participants || m.owner in p.joined))
  {
    var after := Project(db, p);
    forall m ensures Joined(after.members, m) <==> Joined(db.members, m) || (m.call == p.call && m.owner in p.joined) {
      MemberAfter(db.members, p, m);
    }
    forall m
      ensures m in after.members <==> m in db.members || (m.call == p.call && (m.owner in p.participants || m.owner in p.joined))
    {
      NamedAre(p, m);
    }
  }

  /** The three ways a write can go. */
  lemma VerdictIs(db: Db, p: Projection)
    ensures Verdict(db, p).OutOfRange? <==> p.duration >= 0x8000_0000
    ensures Verdict(db, p).Projected? <==>
      p.duration < 0x8000_0000 && (p.call in db.calls || p.conversation in db.activity)
    ensures !Verdict(db, p).Projected? ==> Project(db, p) == db
  {
  }

  /** A new call's row has the event's values; other calls stay as they are. */
  lemma NewCallIsStoredAsRead(db: Db, e: Envelope, date: string -> Option<int>)
    requires ToProjection(e, date).Some?
    requires var p := ToProjection(e, date).value; Verdict(db, p).Projected? && p.call !in db.calls
    ensures e.payload.callId.Text? && e.payload.startedAt.Text? && e.payload.conversationId.Text?
    ensures var from, after := e.payload, Project(db, ToProjection(e, date).value);
      var ended := e.kind != "call.started";
      var c := from.conversationId.s;
      && from.callId.s in after.calls
      && var row := after.calls[from.callId.s];
      && row.conversation == c && Text(row.caller) == from.callerId
      && (row.callee.Some? <==> from.calleeId.Text?) && (row.callee.Some? ==> Text(row.callee.value) == from.calleeId)
      && (row.media == Video <==> from.media == Text("video"))
      && Some(row.startedAt) == date(from.startedAt.s)
      && row.answeredAt == (if from.answeredAt.Text? then date(from.answeredAt.s) else None)
      && row.endedAt == (if ended then Some(e.timestamp) else None)
      && row.endReason == ToProjection(e, date).value.endReason
      && IsDurationOf(row.duration, from.durationSeconds)
      && c in db.activity && c in after.activity
      && after.activity[c] == Max(db.activity[c], if ended then e.timestamp else row.startedAt)
      && (forall d :: d in db.calls ==> d in after.calls && after.calls[d] == db.calls[d])
      && (forall d :: d in db.activity && d != c ==> d in after.activity && after.activity[d] == db.activity[d])
  {
    ProjectionValues(e, date);
    hide ToProjection, UpsertMembers;
  }

  /** What a later event adds to a known call: only what was missing, and the longer duration. */
  lemma KnownCallKeepsItsValues(db: Db, p: Projection)
    requires Verdict(db, p).Projected? && p.call in db.calls
    ensures p.call in Project(db, p).calls
    ensures var before, after := db.calls[p.call], Project(db, p).calls[p.call];
      && after.answeredAt == (if before.answeredAt.Some? then before.answeredAt else p.answeredAt)
      && after.endedAt == (if before.endedAt.Some? then before.endedAt else p.endedAt)
      && after.endReason == (if before.endReason.Some? then before.endReason else p.endReason)
      && after.duration >= before.duration && after.duration >= p.duration && after.duration in {before.duration, p.duration}
      && after == before.(answeredAt := after.answeredAt, endedAt := after.endedAt, endReason := after.endReason,
                          duration := after.duration)
    ensures forall d :: d in db.calls && d != p.call ==> d in Project(db, p).calls && Project(db, p).calls[d] == db.calls[d]
  {
    hide UpsertMembers, Touch;
  }

  lemma NamedAre(p: Projection, m: Member)
    ensures m in Named(p) <==> m.call == p.call && (m.owner in p.participants || m.owner in p.joined)
  {
    if m.call == p.call && (m.owner in p.participants || m.owner in p.joined) {
      assert m.owner in p.participants + p.joined && m == Member(p.call, m.owner);
    }
  }

  // Order and duplicates.

  /** Both set and different. */
  predicate Clash<T(==)>(a: Option<T>, b: Option<T>) {
    a.Some? && b.Some? && a != b
  }

  /** Two events of one call tell the same story; events of different calls always do. */
  predicate Agree(p: Projection, q: Projection) {
    p.call == q.call ==>
      && p.conversation == q.conversation && p.caller == q.caller && p.callee == q.callee && p.media == q.media
      && p.startedAt == q.startedAt
      && !Clash(p.answeredAt, q.answeredAt) && !Clash(p.endedAt, q.endedAt) && !Clash(p.endReason, q.endReason)
  }

  lemma CallsCommute(calls: map<Id, Row>, p: Projection, q: Projection)
    requires Agree(p, q)
    ensures UpsertCall(UpsertCall(calls, p), q) == UpsertCall(UpsertCall(calls, q), p)
  {
  }

  lemma MembersCommute(members: map<Member, bool>, p: Projection, q: Projection)
    ensures UpsertMembers(UpsertMembers(members, p), q) == UpsertMembers(UpsertMembers(members, q), p)
  {
    hide Named;
    var a, b := UpsertMembers(UpsertMembers(members, p), q), UpsertMembers(UpsertMembers(members, q), p);
    assert a.Keys == members.Keys + Named(p) + Named(q) == b.Keys;
    forall m | m in a.Keys
      ensures a[m] == b[m]
    {
      MemberAfter(members, p, m);
      MemberAfter(members, q, m);
      MemberAfter(UpsertMembers(members, p), q, m);
      MemberAfter(UpsertMembers(members, q), p, m);
    }
  }

  predicate Joined(members: map<Member, bool>, m: Member) {
    m in members && members[m]
  }

  lemma MemberAfter(members: map<Member, bool>, p: Projection, m: Member)
    ensures Joined(UpsertMembers(members, p), m) <==> Joined(members, m) || (m.call == p.call && m.owner in p.joined)
  {
    if m.call == p.call && m.owner in p.joined {
      assert m.owner in p.participants + p.joined && m == Member(p.call, m.owner);
      assert m in Named(p);
    }
  }

  lemma TouchesCommute(activity: map<Id, int>, c: Id, t: int, d: Id, u: int)
    ensures Touch(Touch(activity, c, t), d, u) == Touch(Touch(activity, d, u), c, t)
  {
  }

  lemma ProjectionsCommute(db: Db, p: Projection, q: Projection)
    requires Agree(p, q)
    ensures Project(Project(db, p), q) == Project(Project(db, q), p)
  {
    assert Agree(q, p);
    hide UpsertMembers, LastInstant, UpsertCall, Touch, Verdict, Agree;
    VerdictStays(db, p, q);
    VerdictStays(db, q, p);
    if Verdict(db, p).Projected? && Verdict(db, q).Projected? {
      CallsCommute(db.calls, p, q);
      MembersCommute(db.members, p, q);
      TouchesCommute(db.activity, p.conversation, LastInstant(p), q.conversation, LastInstant(q));
    }
  }

  /** Whether an event is written does not depend on an agreeing event before it. */
  lemma VerdictStays(db: Db, p: Projection, q: Projection)
    requires Agree(p, q)
    ensures Verdict(Project(db, p), q) == Verdict(db, q)
  {
    hide UpsertMembers, LastInstant, Merge, Fresh;
    assert Touch(db.activity, p.conversation, LastInstant(p)).Keys == db.activity.Keys;
  }

  lemma ProjectingTwiceIsOnce(db: Db, p: Projection)
    ensures Project(Project(db, p), p) == Project(db, p)
  {
    assert UpsertMembers(UpsertMembers(db.members, p), p) == UpsertMembers(db.members, p);
    assert UpsertCall(UpsertCall(db.calls, p), p) == UpsertCall(db.calls, p);
    hide UpsertMembers, LastInstant, Merge, Fresh;
  }

  function ProjectAll(db: Db, events: seq<Projection>): Db {
    if events == [] then db else Project(ProjectAll(db, events[..|events| - 1]), events[|events| - 1])
  }

  ghost predicate AllAgree(events: seq<Projection>) {
    forall p, q :: p in events && q in events ==> Agree(p, q)
  }

  lemma ProjectSnoc(db: Db, events: seq<Projection>, p: Projection)
    ensures ProjectAll(db, events + [p]) == Project(ProjectAll(db, events), p)
  {
    assert (events + [p])[..|events|] == events;
  }

  /** An event seen before changes nothing, wherever it was. */
  lemma {:induction false} SeenEventIsAbsorbed(db: Db, events: seq<Projection>, p: Projection)
    requires AllAgree(events) && p in events
    ensures Project(ProjectAll(db, events), p) == ProjectAll(db, events)
  {
    hide Project, Agree;
    var last := |events| - 1;
    var before := ProjectAll(db, events[..last]);
    if events[last] == p {
      ProjectingTwiceIsOnce(before, p);
    } else {
      SeenEventIsAbsorbed(db, events[..last], p);
      ProjectionsCommute(before, events[last], p);
    }
  }

  /** Events already seen can be appended in any order. */
  lemma {:induction false} SeenEventsAreAbsorbed(db: Db, events: seq<Projection>, again: seq<Projection>)
    requires AllAgree(events) && forall p :: p in again ==> p in events
    ensures ProjectAll(db, events + again) == ProjectAll(db, events)
  {
    hide Project, Agree;
    if again == [] {
      assert events + again == events;
    } else {
      var last := |again| - 1;
      SeenEventsAreAbsorbed(db, events, again[..last]);
      assert events + again == (events + again[..last]) + [again[last]];
      ProjectSnoc(db, events + again[..last], again[last]);
      SeenEventIsAbsorbed(db, events, again[last]);
    }
  }

  /** Two runs of events can be swapped. */
  lemma {:induction false} RunsSwap(db: Db, first: seq<Projection>, second: seq<Projection>)
    requires forall p, q :: p in first && q in second ==> Agree(p, q)
    ensures ProjectAll(db, first + second) == ProjectAll(db, second + first)
  {
    hide Project, Agree;
    if second == [] {
      assert first + second == first && second + first == first;
    } else {
      var last := |second| - 1;
      RunsSwap(db, first, second[..last]);
      assert first + second == (first + second[..last]) + [second[last]];
      ProjectSnoc(db, first + second[..last], second[last]);
      assert second + first == second[..last] + ([second[last]] + first);
      MoveLast(db, second[..last], second[last], first);
    }
  }

  lemma {:induction false} MoveLast(db: Db, before: seq<Projection>, p: Projection, events: seq<Projection>)
    requires forall q :: q in events ==> Agree(q, p)
    ensures ProjectAll(db, before + ([p] + events)) == Project(ProjectAll(db, before + events), p)
  {
    hide Project, Agree;
    if events == [] {
      assert before + ([p] + events) == before + [p] && before + events == before;
      ProjectSnoc(db, before, p);
    } else {
      var last := |events| - 1;
      var e, rest := events[last], events[..last];
      MoveLast(db, before, p, rest);
      Regroup(before, p, rest, e);
      assert events == rest + [e];
      hide ProjectAll;
      ProjectSnoc(db, before + ([p] + rest), e);
      ProjectSnoc(db, before + rest, e);
      ProjectionsCommute(ProjectAll(db, before + rest), e, p);
    }
  }

  lemma Regroup(before: seq<Projection>, p: Projection, rest: seq<Projection>, e: Projection)
    ensures before + ([p] + (rest + [e])) == (before + ([p] + rest)) + [e]
    ensures before + (rest + [e]) == (before + rest) + [e]
  {
  }

  /**
   * Any two deliveries of the same events, of one call or of many, in any order and with any duplicates, leave the
   * same call rows, the same members and the same activity times, from any database, when events of one call agree.
   */
  lemma DeliveryOrderDoesNotMatter(db: Db, one: seq<Projection>, other: seq<Projection>)
    requires forall p :: p in one <==> p in other
    requires AllAgree(one)
    ensures ProjectAll(db, one) == ProjectAll(db, other)
  {
    SeenEventsAreAbsorbed(db, one, other);
    SeenEventsAreAbsorbed(db, other, one);
    RunsSwap(db, one, other);
  }

  /** Rows that no later event makes equal. */
  predicate Apart(r: Row, s: Row) {
    || r.conversation != s.conversation || r.caller != s.caller || r.callee != s.callee || r.media != s.media
    || r.startedAt != s.startedAt
    || Clash(r.answeredAt, s.answeredAt) || Clash(r.endedAt, s.endedAt) || Clash(r.endReason, s.endReason)
  }

  lemma StepKeepsApart(one: Db, other: Db, c: Id, p: Projection)
    requires c in one.calls && c in other.calls && Apart(one.calls[c], other.calls[c])
    ensures c in Project(one, p).calls && c in Project(other, p).calls
    ensures Apart(Project(one, p).calls[c], Project(other, p).calls[c])
  {
    hide UpsertMembers, Touch;
  }

  lemma {:induction false} ApartForever(one: Db, other: Db, c: Id, events: seq<Projection>)
    requires c in one.calls && c in other.calls && Apart(one.calls[c], other.calls[c])
    ensures c in ProjectAll(one, events).calls && c in ProjectAll(other, events).calls
    ensures Apart(ProjectAll(one, events).calls[c], ProjectAll(other, events).calls[c])
  {
    hide Project, Apart;
    if events != [] {
      var last := |events| - 1;
      ApartForever(one, other, c, events[..last]);
      StepKeepsApart(ProjectAll(one, events[..last]), ProjectAll(other, events[..last]), c, events[last]);
    }
  }

  lemma {:induction false} ProjectSum(db: Db, first: seq<Projection>, second: seq<Projection>)
    ensures ProjectAll(db, first + second) == ProjectAll(ProjectAll(db, first), second)
  {
    hide Project;
    if second == [] {
      assert first + second == first;
    } else {
      var last := |second| - 1;
      assert first + second == (first + second[..last]) + [second[last]];
      ProjectSnoc(db, first + second[..last], second[last]);
      ProjectSum(db, first, second[..last]);
    }
  }

  /** The event can be written to a database that has its conversation and not its call. */
  predicate IsNewCall(db: Db, p: Projection) {
    p.call !in db.calls && p.conversation in db.activity && p.duration <= INT4_MAX
  }

  lemma ProjectPair(db: Db, p: Projection, q: Projection)
    ensures ProjectAll(db, [p, q]) == Project(Project(db, p), q)
  {
    hide Project;
    assert [p, q] == ([] + [p]) + [q];
    ProjectSnoc(db, [], p);
    ProjectSnoc(db, [] + [p], q);
  }

  lemma DisagreeingPairIsApart(db: Db, p: Projection, q: Projection)
    requires IsNewCall(db, p) && IsNewCall(db, q) && !Agree(p, q)
    ensures var one, other := ProjectAll(db, [p, q]), ProjectAll(db, [q, p]);
      p.call in one.calls && p.call in other.calls && Apart(one.calls[p.call], other.calls[p.call])
  {
    ProjectPair(db, p, q);
    ProjectPair(db, q, p);
    hide UpsertMembers, LastInstant;
    assert Project(Project(db, p), q).calls[p.call] == Merge(Fresh(p), q);
    assert Project(Project(db, q), p).calls[p.call] == Merge(Fresh(q), p);
  }

  lemma PairToTheFront(events: seq<Projection>, i: nat, j: nat)
    requires i < j < |events|
    ensures var rest := events[..i] + events[i + 1..j] + events[j + 1..];
      && multiset([events[i], events[j]] + rest) == multiset(events)
      && multiset([events[j], events[i]] + rest) == multiset(events)
  {
    assert events == events[..i] + [events[i]] + events[i + 1..j] + [events[j]] + events[j + 1..];
  }

  lemma AgreeIsSymmetric(p: Projection, q: Projection)
    ensures Agree(p, q) <==> Agree(q, p)
  {
  }

  /** Two orders of the same events, and what they lead to. */
  ghost predicate OrdersDiffer(db: Db, events: seq<Projection>, one: seq<Projection>, other: seq<Projection>) {
    multiset(one) == multiset(events) == multiset(other) && ProjectAll(db, one) != ProjectAll(db, other)
  }

  lemma DisagreeingEventsDiffer(db: Db, events: seq<Projection>, i: nat, j: nat)
      returns (one: seq<Projection>, other: seq<Projection>)
    requires i < |events| && j < |events| && !Agree(events[i], events[j])
    requires IsNewCall(db, events[i]) && IsNewCall(db, events[j])
    ensures OrdersDiffer(db, events, one, other)
  {
    if j < i {
      AgreeIsSymmetric(events[i], events[j]);
      one, other := DisagreeingEventsDiffer(db, events, j, i);
    } else {
      var p, q, rest := events[i], events[j], events[..i] + events[i + 1..j] + events[j + 1..];
      PairToTheFront(events, i, j);
      DisagreeingPairIsApart(db, p, q);
      hide Project, ProjectAll, Agree;
      one, other := [p, q] + rest, [q, p] + rest;
      ApartForever(ProjectAll(db, [p, q]), ProjectAll(db, [q, p]), p.call, rest);
      ProjectSum(db, [p, q], rest);
      ProjectSum(db, [q, p], rest);
    }
  }

  /**
   * For any events of new calls whose conversations are there: every order of them leads to one database if and only if
   * any two of one call agree.
   */
  lemma EveryOrderLeadsToOneIffAllAgree(db: Db, events: seq<Projection>)
    requires forall p :: p in events ==> IsNewCall(db, p)
    ensures (forall one, other :: !OrdersDiffer(db, events, one, other)) <==> AllAgree(events)
  {
    hide ProjectAll, Agree, IsNewCall;
    if AllAgree(events) {
      forall one, other ensures !OrdersDiffer(db, events, one, other) {
        if multiset(one) == multiset(events) == multiset(other) {
          SameElements(events, one);
          SameElements(events, other);
          DeliveryOrderDoesNotMatter(db, one, other);
        }
      }
    } else {
      var p, q :| p in events && q in events && !Agree(p, q);
      var i: nat :| i < |events| && events[i] == p;
      var j: nat :| j < |events| && events[j] == q;
      var one, other := DisagreeingEventsDiffer(db, events, i, j);
    }
  }

  lemma SameElements(events: seq<Projection>, order: seq<Projection>)
    requires multiset(order) == multiset(events)
    ensures forall p :: p in order <==> p in events
  {
    assert forall p :: p in order <==> p in multiset(order);
    assert forall p :: p in events <==> p in multiset(events);
  }

  /** A started event of a call between two people. */
  function StartedCall(call: Id, conversation: Id, answeredAt: Option<int>, duration: nat): Projection {
    Projection(call, conversation, "a", Some("b"), [], [], Audio, 0, answeredAt, None, None, duration)
  }

  /** Two events that give a call two answer times: whichever is delivered first stays. */
  lemma FirstAnswerStays(call: Id, conversation: Id)
    ensures var db := Db(map[], map[], map[conversation := 0]);
      var p, q := StartedCall(call, conversation, Some(1), 0), StartedCall(call, conversation, Some(2), 0);
      ProjectAll(db, [p, q]) != ProjectAll(db, [q, p])
  {
    var db := Db(map[], map[], map[conversation := 0]);
    var p, q := StartedCall(call, conversation, Some(1), 0), StartedCall(call, conversation, Some(2), 0);
    assert !Agree(p, q) && IsNewCall(db, p) && IsNewCall(db, q);
    hide StartedCall, ProjectAll;
    DisagreeingPairIsApart(db, p, q);
  }

  // Calls nobody ended.

  predicate IsStale(r: Row, lifetime: nat, now: int) {
    r.endedAt.None? && r.startedAt < now - lifetime
  }

  function Stale(calls: map<Id, Row>, lifetime: nat, now: int): set<Id> {
    set c | c in calls && IsStale(calls[c], lifetime, now)
  }

  function SweepRow(r: Row, lifetime: nat, now: int): Row {
    if IsStale(r, lifetime, now) then r.(endedAt := Some(r.startedAt + lifetime), endReason := Some(Expired)) else r
  }

  function Sweep(db: Db, lifetime: nat, now: int): Db {
    db.(calls := map c | c in db.calls :: SweepRow(db.calls[c], lifetime, now))
  }

  // What readers see: times pass through the driver, and a call too old to be running reads as expired.

  function Driven(r: Row): Row {
    r.(startedAt := FloorMs(r.startedAt),
       answeredAt := if r.answeredAt.Some? then Some(FloorMs(r.answeredAt.value)) else None,
       endedAt := if r.endedAt.Some? then Some(FloorMs(r.endedAt.value)) else None)
  }

  /** `clock` is the reader's own, in whole milliseconds. */
  function SettleStaleCall(r: Row, lifetime: nat, clock: int): Row {
    if r.endedAt.Some? || r.startedAt + lifetime > clock then r
    else r.(endedAt := Some(r.startedAt + lifetime), endReason := Some(Expired), duration := 0)
  }

  function Seen(r: Row, lifetime: nat, now: int): Row {
    SettleStaleCall(Driven(r), lifetime, FloorMs(now))
  }

  datatype Status = Ringing | Active | Completed | WasDeclined | WasMissed

  function CallStatus(r: Row): Status {
    if r.endedAt.None? then (if r.answeredAt.Some? then Active else Ringing)
    else if r.answeredAt.Some? then Completed
    else if r.endReason == Some(Declined) then WasDeclined
    else WasMissed
  }

  /** What a status says of a row. */
  lemma StatusTells(r: Row)
    ensures CallStatus(r) in {Ringing, Active} <==> r.endedAt.None?
    ensures CallStatus(r) in {Active, Completed} <==> r.answeredAt.Some?
    ensures CallStatus(r) == WasDeclined <==> r.endedAt.Some? && r.answeredAt.None? && r.endReason == Some(Declined)
    ensures CallStatus(r) == WasMissed <==> r.endedAt.Some? && r.answeredAt.None? && r.endReason != Some(Declined)
  {
  }

  /** A sweep closes an open call that started more than its lifetime ago, at the end of that lifetime. */
  lemma SweptRowEndsWithItsLifetime(r: Row, lifetime: nat, now: int)
    ensures SweepRow(r, lifetime, now) ==
      if r.endedAt == None && now - r.startedAt > lifetime
      then r.(endedAt := Some(r.startedAt + lifetime), endReason := Some(Expired)) else r
  {
  }

  /** A reader sees an open call closed from the end of its lifetime on, in whole milliseconds and without a duration. */
  lemma ReadRowEndsWithItsLifetime(r: Row, lifetime: nat, now: int)
    requires r.endedAt == None
    ensures var seen, start := Seen(r, lifetime, now), FloorMs(r.startedAt);
      if FloorMs(now) - start >= lifetime
      then seen.endedAt == Some(start + lifetime) && seen.endReason == Some(Expired) && seen.duration == 0
      else seen.endedAt == None && seen.endReason == r.endReason && seen.duration == r.duration
    ensures var seen := Seen(r, lifetime, now);
      && seen.startedAt == FloorMs(r.startedAt) && seen.answeredAt.Some? == r.answeredAt.Some?
      && (r.answeredAt.Some? ==> seen.answeredAt == Some(FloorMs(r.answeredAt.value)))
      && seen.conversation == r.conversation && seen.caller == r.caller && seen.callee == r.callee && seen.media == r.media
  {
  }

  /** An ended call is shown as it is, in whole milliseconds. */
  lemma EndedRowIsShown(r: Row, lifetime: nat, now: int)
    requires r.endedAt.Some?
    ensures var seen := Seen(r, lifetime, now);
      seen.endedAt == Some(FloorMs(r.endedAt.value)) && seen.endReason == r.endReason && seen.duration == r.duration
  {
  }

  lemma FloorMsIsMonotone(a: int, b: int)
    requires a <= b
    ensures FloorMs(a) <= FloorMs(b)
  {
  }

  lemma FloorMsPlusWhole(t: int, w: int)
    requires WholeMs(w)
    ensures FloorMs(t + w) == FloorMs(t) + w
  {
  }

  /** No reader is shown a live call past its lifetime, or an expired one before it. */
  lemma LiveIffWithinLifetime(r: Row, lifetime: nat, now: int)
    requires r.endedAt.None?
    ensures CallStatus(Seen(r, lifetime, now)) in {Active, Ringing} <==> FloorMs(now) < FloorMs(r.startedAt) + lifetime
  {
  }

  /**
   * For every row and any sweep before the read, reading the swept row shows what reading the unswept one would,
   * unless the sweep closed a row that already had a duration: the read drops it and the sweep keeps it.
   */
  lemma SweepShowsWhatReadsShowIff(r: Row, lifetime: nat, swept: int, now: int)
    requires WholeMs(lifetime) && swept <= now
    ensures Seen(SweepRow(r, lifetime, swept), lifetime, now) == Seen(r, lifetime, now)
       <==> !IsStale(r, lifetime, swept) || r.duration == 0
  {
    if IsStale(r, lifetime, swept) {
      FloorMsPlusWhole(r.startedAt, lifetime);
      FloorMsIsMonotone(r.startedAt + lifetime, now);
    }
  }

  /** A started event that carries a duration, and no ending: the swept row shows the duration, the unswept one none. */
  lemma SweepKeepsADurationReadsDrop(call: Id, conversation: Id)
    ensures var r := Project(Db(map[], map[], map[conversation := 0]), StartedCall(call, conversation, None, 5)).calls[call];
      && r.duration == 5
      && Seen(SweepRow(r, 1000, 5000), 1000, 5000).duration == 5 && Seen(r, 1000, 5000).duration == 0
  {
    hide UpsertMembers;
  }

  /** The read closes a call no later than the sweep, and earlier only within one millisecond of its expiry. */
  lemma ReadClosesNoLaterThanSweep(r: Row, lifetime: nat, now: int)
    requires WholeMs(lifetime) && r.endedAt.None?
    ensures IsStale(r, lifetime, now) ==> Seen(r, lifetime, now).endedAt.Some?
    ensures Seen(r, lifetime, now).endedAt.Some? && !IsStale(r, lifetime, now)
       <==> now <= r.startedAt + lifetime && FloorMs(r.startedAt + lifetime) == FloorMs(now)
  {
    FloorMsPlusWhole(r.startedAt, lifetime);
    if r.startedAt + lifetime <= now { FloorMsIsMonotone(r.startedAt + lifetime, now); }
    else { FloorMsIsMonotone(now, r.startedAt + lifetime); }
  }

  // Runs of projections and sweeps.

  datatype Op = Write(p: Projection) | Tick(lifetime: nat, now: int)

  function Apply(db: Db, op: Op): Db {
    match op
    case Write(p) => Project(db, p)
    case Tick(lifetime, now) => Sweep(db, lifetime, now)
  }

  function Run(db: Db, ops: seq<Op>): Db {
    if ops == [] then db else Apply(Run(db, ops[..|ops| - 1]), ops[|ops| - 1])
  }

  ghost predicate AreEvents(ops: seq<Op>) {
    forall op :: op in ops && op.Write? ==> IsEvent(op.p)
  }

  predicate EndingsAreWhole(calls: map<Id, Row>) {
    forall c :: c in calls ==> calls[c].endedAt.Some? == calls[c].endReason.Some?
  }

  /** How a row may change: fixed columns stay, an ending stays, the duration does not fall. */
  predicate Advances(r: Row, s: Row) {
    && s.conversation == r.conversation && s.caller == r.caller && s.callee == r.callee && s.media == r.media
    && s.startedAt == r.startedAt
    && (r.answeredAt.Some? ==> s.answeredAt == r.answeredAt)
    && (r.endedAt.Some? ==> s.endedAt == r.endedAt && s.endReason == r.endReason)
    && r.duration <= s.duration
  }

  lemma StepAdvances(db: Db, op: Op, c: Id)
    requires EndingsAreWhole(db.calls) && c in db.calls
    ensures c in Apply(db, op).calls && Advances(db.calls[c], Apply(db, op).calls[c])
  {
    hide UpsertMembers, Touch;
  }

  lemma StepKeepsEndingsWhole(db: Db, op: Op)
    requires EndingsAreWhole(db.calls) && (op.Write? ==> IsEvent(op.p))
    ensures EndingsAreWhole(Apply(db, op).calls)
  {
    hide UpsertMembers, Touch;
  }

  /** Over any run, an ending's time and reason come together and never change, and durations never fall. */
  lemma {:induction false} EndingsAreFinal(db: Db, ops: seq<Op>, c: Id)
    requires EndingsAreWhole(db.calls) && AreEvents(ops) && c in db.calls
    ensures EndingsAreWhole(Run(db, ops).calls)
    ensures c in Run(db, ops).calls && Advances(db.calls[c], Run(db, ops).calls[c])
  {
    hide Apply;
    if ops != [] {
      var last := |ops| - 1;
      EndingsAreFinal(db, ops[..last], c);
      StepAdvances(Run(db, ops[..last]), ops[last], c);
      StepKeepsEndingsWhole(Run(db, ops[..last]), ops[last]);
    }
  }

  /** Nobody is un-joined or forgotten, and no conversation's activity moves back. */
  predicate Grows(db: Db, after: Db) {
    && (forall m :: m in db.members ==> m in after.members && (db.members[m] ==> after.members[m]))
    && (forall c :: c in db.activity ==> c in after.activity && db.activity[c] <= after.activity[c])
  }

  /** Over any run, what is known about members and activity only grows. */
  lemma {:induction false} HistoryOnlyGrows(db: Db, ops: seq<Op>)
    ensures Grows(db, Run(db, ops))
  {
    hide Apply;
    if ops != [] {
      HistoryOnlyGrows(db, ops[..|ops| - 1]);
      StepGrows(Run(db, ops[..|ops| - 1]), ops[|ops| - 1]);
    }
  }

  lemma StepGrows(db: Db, op: Op)
    ensures Grows(db, Apply(db, op))
  {
    hide UpsertCall, Named;
  }

  /** A reader whose clock does not run backwards never sees a closed call reopen, whatever happens in between. */
  lemma {:induction false} ClosedCallsStayClosed(db: Db, ops: seq<Op>, c: Id, lifetime: nat, first: int, second: int)
    requires EndingsAreWhole(db.calls) && AreEvents(ops) && c in db.calls && first <= second
    requires Seen(db.calls[c], lifetime, first).endedAt.Some?
    ensures c in Run(db, ops).calls && Seen(Run(db, ops).calls[c], lifetime, second).endedAt.Some?
  {
    EndingsAreFinal(db, ops, c);
    FloorMsIsMonotone(first, second);
  }
}
