/**
 * Conversations, their participants and their messages. Each transaction is one step, and so is a statement outside of
 * one. What a route checks before it writes is read at an earlier step, so other steps fall in between. Message times
 * are transaction times and may arrive out of order.
 */
module Conversations {
  import opened Collections
  import opened Keyset
  import opened Options
  import opened TextOrder

  type Id = nat
  type Owner = string

  // The key of a direct conversation.

  function DirectKeyFor(a: Owner, b: Owner): string {
    if Less(b, a) then b + "|" + a else a + "|" + b
  }

  lemma KeyIgnoresOrder(a: Owner, b: Owner)
    ensures DirectKeyFor(a, b) == DirectKeyFor(b, a)
  {
    LessIsTotal(a, b);
    if Less(a, b) { LessIsAsymmetric(a, b); }
  }

  /** `c` is `a`, a bar and `m`; `b` is `m`, a bar and `d`. */
  predicate Overlap(a: string, b: string, c: string, d: string, m: string) {
    c == a + "|" + m && b == m + "|" + d
  }

  /** Two sorted pairs get one key exactly when they are the same pair or one bar of the key splits it either way. */
  lemma SameKeyIff(a: Owner, b: Owner, c: Owner, d: Owner)
    ensures a + "|" + b == c + "|" + d <==>
      (a == c && b == d) || (exists m :: Overlap(a, b, c, d, m)) || (exists m :: Overlap(c, d, a, b, m))
  {
    if a + "|" + b == c + "|" + d {
      if |a| == |c| {
        SplitEqual(a, b, c, d);
      } else if |a| < |c| {
        SplitLater(a, b, c, d);
      } else {
        SplitLater(c, d, a, b);
      }
    }
  }

  lemma SplitEqual(a: string, b: string, c: string, d: string)
    requires a + "|" + b == c + "|" + d && |a| == |c|
    ensures a == c && b == d
  {
    var k := a + "|" + b;
    assert a == k[..|a|] && c == (c + "|" + d)[..|a|];
    assert b == k[|a| + 1..] && d == (c + "|" + d)[|a| + 1..];
  }

  lemma SplitLater(a: string, b: string, c: string, d: string)
    requires a + "|" + b == c + "|" + d && |a| < |c|
    ensures exists m :: Overlap(a, b, c, d, m)
  {
    var k := a + "|" + b;
    var m := c[|a| + 1..];
    assert k[|a|] == '|' && k[..|a|] == a;
    assert c == k[..|c|];
    assert c == a + "|" + m;
    assert b == k[|a| + 1..] == m + "|" + d;
    assert Overlap(a, b, c, d, m);
  }

  /** Ids without a bar are found again from their key. */
  lemma BarFreeKeyIsInjective(a: Owner, b: Owner, c: Owner, d: Owner)
    requires '|' !in a && '|' !in b && '|' !in c && '|' !in d
    ensures DirectKeyFor(a, b) == DirectKeyFor(c, d) <==> {a, b} == {c, d}
  {
    var x, y := if Less(b, a) then b else a, if Less(b, a) then a else b;
    var z, w := if Less(d, c) then d else c, if Less(d, c) then c else d;
    SortedPairIsUnique(a, b, c, d);
    SameKeyIff(x, y, z, w);
    forall m ensures !Overlap(x, y, z, w, m) && !Overlap(z, w, x, y, m) {
      assert (x + "|" + m)[|x|] == '|' && (z + "|" + m)[|z|] == '|';
    }
  }

  lemma SortedPairIsUnique(a: Owner, b: Owner, c: Owner, d: Owner)
    ensures var x, y := if Less(b, a) then b else a, if Less(b, a) then a else b;
      var z, w := if Less(d, c) then d else c, if Less(d, c) then c else d;
      {a, b} == {c, d} <==> x == z && y == w
  {
    KeyIgnoresOrder(a, b);
    LessIsTotal(a, b);
    if Less(a, b) { LessIsAsymmetric(a, b); }
    if {a, b} == {c, d} {
      assert a in {c, d} && b in {c, d} && c in {a, b} && d in {a, b};
    }
  }

  /** With a bar in an id, two different pairs share a key. */
  lemma BarsCollide()
    ensures DirectKeyFor("a|b", "c") == DirectKeyFor("a", "b|c") && {"a|b", "c"} != {"a", "b|c"}
  {
    assert !Less("c", "a|b") && !Less("b|c", "a");
    assert "a|b" + "|" + "c" == "a" + "|" + "b|c";
    assert "c" !in {"a", "b|c"};
  }

  // The tables.

  /** A direct conversation has a key, a group has none. */
  datatype Conversation = Conversation(directKey: Option<string>, createdBy: Owner, lastMessageAt: Option<int>,
        lastActivityAt: int)

  datatype Seat = Seat(conversation: Id, owner: Owner)

  datatype Participant = Participant(active: bool, admin: bool)

  datatype MessageKey = MessageKey(conversation: Id, sender: Owner, clientId: string)

  /** `direct` is the unique index on the key. */
  datatype Db = Db(
    conversations: map<Id, Conversation>, direct: map<string, Id>, seats: map<Seat, Participant>, messages: map<MessageKey, int>)

  function Owners(seats: map<Seat, Participant>, c: Id): set<Owner> {
    set s | s in seats && s.conversation == c :: s.owner
  }

  function ActiveOwners(seats: map<Seat, Participant>, c: Id): set<Owner> {
    set s | s in seats && s.conversation == c && seats[s].active :: s.owner
  }

  predicate IsActive(db: Db, c: Id, o: Owner) {
    c in db.conversations && Seat(c, o) in db.seats && db.seats[Seat(c, o)].active
  }

  predicate IsAdmin(db: Db, c: Id, o: Owner) {
    IsActive(db, c, o) && db.seats[Seat(c, o)].admin
  }

  // What the statements do.

  function NonEmpty(ids: seq<Owner>): seq<Owner> {
    if ids == [] then []
    else NonEmpty(ids[..|ids| - 1]) + if ids[|ids| - 1] == "" then [] else [ids[|ids| - 1]]
  }

  /** The ids, each once and without empty ones. */
  function Members(ids: seq<Owner>): seq<Owner> {
    NonEmpty(Distinct(ids))
  }

  lemma {:induction false} NonEmptyKeeps(ids: seq<Owner>)
    requires AllDistinct(ids)
    ensures AllDistinct(NonEmpty(ids)) && |NonEmpty(ids)| <= |ids|
    ensures forall o :: o in NonEmpty(ids) <==> o in ids && o != ""
  {
    if ids != [] {
      var last := |ids| - 1;
      NonEmptyKeeps(ids[..last]);
      assert ids == ids[..last] + [ids[last]];
      assert ids[last] !in ids[..last];
    }
  }

  lemma MembersAre(ids: seq<Owner>)
    ensures AllDistinct(Members(ids)) && |Members(ids)| <= |ids|
    ensures forall o :: o in Members(ids) <==> o in ids && o != ""
  {
    DistinctIsTheSet(ids);
    NonEmptyKeeps(Distinct(ids));
  }

  function SetOf(owners: seq<Owner>): set<Owner> {
    set o | o in owners
  }

  /** Seats people in a conversation; whoever had left is active again and keeps their role. */
  function Seated(seats: map<Seat, Participant>, c: Id, owners: seq<Owner>, admin: Option<Owner>): map<Seat, Participant> {
    map s | s in seats.Keys + (set o | o in owners :: Seat(c, o)) ::
      if s.conversation == c && s.owner in owners then
        Participant(true, if s in seats then seats[s].admin else Some(s.owner) == admin)
      else seats[s]
  }

  datatype Op =
    | Create(id: Id, owner: Owner, direct: bool, ids: seq<Owner>, now: int)
    | Add(conversation: Id, ids: seq<Owner>)
    | Leave(conversation: Id, owner: Owner)
    | Send(conversation: Id, sender: Owner, clientId: string, at: int)
    | ProjectCall(conversation: Id, at: int)

  /** Two distinct people, or a group no larger than the cap counting every listed id. */
  predicate MayCreate(owner: Owner, direct: bool, ids: seq<Owner>, cap: nat) {
    var members := Members([owner] + ids);
    && (direct ==> |members| == 2)
    && (!direct ==> |ids| + 1 <= cap)
    && |members| >= 2
  }

  /** What the add route checks before its write: an admin, a group, named people, and room for all of them. */
  predicate MayAdd(db: Db, c: Id, asker: Owner, ids: seq<Owner>, cap: nat) {
    && IsAdmin(db, c, asker) && IsGroup(db, c) && ids != [] && "" !in ids
    && Fits(db, c, ids, cap)
  }

  predicate IsGroup(db: Db, c: Id) {
    c in db.conversations && db.conversations[c].directKey.None?
  }

  predicate Fits(db: Db, c: Id, ids: seq<Owner>, cap: nat) {
    |ActiveOwners(db.seats, c) + SetOf(ids)| <= cap
  }

  /** The statement fails when a row is named twice. */
  predicate AddHappens(db: Db, c: Id, ids: seq<Owner>) {
    IsGroup(db, c) && ids != [] && "" !in ids && AllDistinct(ids)
  }

  function Created(db: Db, id: Id, owner: Owner, direct: bool, ids: seq<Owner>, now: int): Db
    requires direct ==> |Members([owner] + ids)| == 2
  {
    var members := Members([owner] + ids);
    if direct then
      var key := DirectKeyFor(members[0], members[1]);
      if key in db.direct then db.(seats := Seated(db.seats, db.direct[key], members, None))
      else
        Db(db.conversations[id := Conversation(Some(key), owner, None, now)], db.direct[key := id],
           Seated(db.seats, id, members, Some(owner)), db.messages)
    else
      Db(db.conversations[id := Conversation(None, owner, None, now)], db.direct,
         Seated(db.seats, id, members, Some(owner)), db.messages)
  }

  /** The message's time comes back from the driver in milliseconds before it is written to the conversation. */
  function Sent(db: Db, key: MessageKey, at: int): Db
    requires key.conversation in db.conversations
  {
    if key in db.messages then db
    else
      var c, t := db.conversations[key.conversation], FloorMs(at);
      db.(messages := db.messages[key := at],
          conversations := db.conversations[key.conversation :=
            c.(lastMessageAt := Some(Max(c.lastMessageAt.GetOr(t), t)), lastActivityAt := Max(c.lastActivityAt, t))])
  }

  /** A statement that fails or finds nothing changes nothing. */
  function Apply(db: Db, op: Op, cap: nat): Db {
    match op
    case Create(id, owner, direct, ids, now) =>
      if id !in db.conversations && MayCreate(owner, direct, ids, cap) then Created(db, id, owner, direct, ids, now) else db
    case Add(c, ids) =>
      if AddHappens(db, c, ids) then db.(seats := Seated(db.seats, c, ids, None)) else db
    case Leave(c, o) =>
      if IsActive(db, c, o) then db.(seats := db.seats[Seat(c, o) := db.seats[Seat(c, o)].(active := false)]) else db
    case Send(c, o, clientId, at) =>
      if c in db.conversations then Sent(db, MessageKey(c, o, clientId), at) else db
    case ProjectCall(c, at) =>
      if c in db.conversations
      then
        var touched := db.conversations[c].(lastActivityAt := Max(db.conversations[c].lastActivityAt, at));
        db.(conversations := db.conversations[c := touched])
      else db
  }

  const EMPTY := Db(map[], map[], map[], map[])

  function RunFrom(db: Db, ops: seq<Op>, cap: nat): Db {
    if ops == [] then db else Apply(RunFrom(db, ops[..|ops| - 1], cap), ops[|ops| - 1], cap)
  }

  function Run(ops: seq<Op>, cap: nat): Db {
    RunFrom(EMPTY, ops, cap)
  }

  lemma RunSnoc(ops: seq<Op>, op: Op, cap: nat)
    ensures Run(ops + [op], cap) == Apply(Run(ops, cap), op, cap)
  {
    hide Apply;
    assert (ops + [op])[..|ops|] == ops;
  }

  // Who is in.

  lemma SeatedOwners(seats: map<Seat, Participant>, c: Id, owners: seq<Owner>, admin: Option<Owner>, d: Id)
    ensures var after := Seated(seats, c, owners, admin);
      && Owners(after, d) == Owners(seats, d) + (if c == d then SetOf(owners) else {})
      && ActiveOwners(after, d) == ActiveOwners(seats, d) + (if c == d then SetOf(owners) else {})
  {
    var after := Seated(seats, c, owners, admin);
    assert forall s :: s in seats ==> s in after;
    assert forall o :: o in owners ==> Seat(c, o) in after && after[Seat(c, o)].active;
    assert forall s :: s in after ==> s in seats || (s.conversation == c && s.owner in owners);
  }

  // Links between the tables.

  predicate Linked(db: Db) {
    && (forall k :: k in db.direct ==> db.direct[k] in db.conversations && db.conversations[db.direct[k]].directKey == Some(k))
    && (forall c :: c in db.conversations && db.conversations[c].directKey.Some? ==>
          db.conversations[c].directKey.value in db.direct && db.direct[db.conversations[c].directKey.value] == c)
    && (forall s :: s in db.seats ==> s.conversation in db.conversations)
    && (forall m :: m in db.messages ==> m.conversation in db.conversations)
  }

  lemma SeatedKeys(seats: map<Seat, Participant>, c: Id, owners: seq<Owner>, admin: Option<Owner>)
    ensures forall s :: s in Seated(seats, c, owners, admin) <==> s in seats || (s.conversation == c && s.owner in owners)
  {
    assert forall o :: o in owners ==> Seat(c, o) in Seated(seats, c, owners, admin);
  }

  lemma CreatedIsLinked(db: Db, id: Id, owner: Owner, direct: bool, ids: seq<Owner>, now: int, cap: nat)
    requires Linked(db) && id !in db.conversations && MayCreate(owner, direct, ids, cap)
    ensures Linked(Created(db, id, owner, direct, ids, now))
  {
    var members := Members([owner] + ids);
    SeatedKeys(db.seats, id, members, Some(owner));
    hide Members, Seated, DirectKeyFor;
    if direct && DirectKeyFor(members[0], members[1]) in db.direct {
      SeatedKeys(db.seats, db.direct[DirectKeyFor(members[0], members[1])], members, None);
    }
  }

  lemma StepKeepsLinked(db: Db, op: Op, cap: nat)
    requires Linked(db)
    ensures Linked(Apply(db, op, cap))
  {
    hide MayCreate, AddHappens, Created, Seated, Owners, ActiveOwners;
    match op
    case Create(id, owner, direct, ids, now) =>
      if id !in db.conversations && MayCreate(owner, direct, ids, cap) { CreatedIsLinked(db, id, owner, direct, ids, now, cap); }
    case Add(c, ids) => if AddHappens(db, c, ids) { AddedIsLinked(db, c, ids); }
    case Leave(c, o) =>
    case Send(c, o, clientId, at) =>
    case ProjectCall(c, at) =>
  }

  lemma AddedIsLinked(db: Db, c: Id, ids: seq<Owner>)
    requires Linked(db) && AddHappens(db, c, ids)
    ensures Linked(db.(seats := Seated(db.seats, c, ids, None)))
  {
    SeatedKeys(db.seats, c, ids, None);
    hide Seated;
  }

  lemma NobodySeated(db: Db, c: Id)
    requires Linked(db) && c !in db.conversations
    ensures Owners(db.seats, c) == {} && ActiveOwners(db.seats, c) == {}
  {
  }

  // What the steps do.

  /** Who is to be in a new conversation: everyone named, and its creator. */
  function People(owner: Owner, ids: seq<Owner>): set<Owner> {
    (set o | o in ids) + {owner} - {""}
  }

  lemma MembersArePeople(owner: Owner, ids: seq<Owner>)
    ensures SetOf(Members([owner] + ids)) == People(owner, ids)
    ensures |Members([owner] + ids)| == |People(owner, ids)|
  {
    MembersAre([owner] + ids);
    CountOfDistinct(Members([owner] + ids));
    assert SetOf(Members([owner] + ids)) == People(owner, ids);
    assert SetOf(Members([owner] + ids)) == set x | x in Members([owner] + ids);
  }

  /** A direct conversation takes exactly two people; a group two or more, and its cap counts every listed id. */
  lemma MayCreateIff(owner: Owner, direct: bool, ids: seq<Owner>, cap: nat)
    ensures MayCreate(owner, direct, ids, cap) <==>
      if direct then |People(owner, ids)| == 2 else |People(owner, ids)| >= 2 && |ids| + 1 <= cap
  {
    MembersArePeople(owner, ids);
    hide Members, People;
  }

  /** A new group: its creator's, without messages, active from now on, with exactly its people, all active. */
  lemma CreatedGroup(db: Db, id: Id, owner: Owner, ids: seq<Owner>, now: int, cap: nat)
    requires Linked(db) && id !in db.conversations && MayCreate(owner, false, ids, cap)
    ensures var after := Apply(db, Create(id, owner, false, ids, now), cap);
      && after.conversations == db.conversations[id := Conversation(None, owner, None, now)]
      && Owners(after.seats, id) == ActiveOwners(after.seats, id) == People(owner, ids)
      && after.direct == db.direct && after.messages == db.messages
  {
    MembersArePeople(owner, ids);
    NobodySeated(db, id);
    hide Members, Seated, Owners, ActiveOwners, SetOf, People;
    SeatedOwners(db.seats, id, Members([owner] + ids), Some(owner), id);
  }

  /** A pair's first opening makes a conversation under its key; a later one finds it and brings both back. */
  lemma OpenedPair(db: Db, id: Id, owner: Owner, ids: seq<Owner>, now: int, cap: nat)
    requires Linked(db) && id !in db.conversations && MayCreate(owner, true, ids, cap)
    ensures var after, key := Apply(db, Create(id, owner, true, ids, now), cap), PairKey(owner, ids);
      && key in after.direct
      && var c := after.direct[key];
      && (key in db.direct ==>
            && c == db.direct[key] && after.conversations == db.conversations
            && ActiveOwners(after.seats, c) == ActiveOwners(db.seats, c) + People(owner, ids))
      && (key !in db.direct ==>
            && c == id && after.conversations == db.conversations[id := Conversation(Some(key), owner, None, now)]
            && ActiveOwners(after.seats, c) == People(owner, ids))
  {
    MembersArePeople(owner, ids);
    NobodySeated(db, id);
    hide Members, Seated, Owners, ActiveOwners, SetOf, People, DirectKeyFor;
    var members := Members([owner] + ids);
    var key := PairKey(owner, ids);
    if key in db.direct { SeatedOwners(db.seats, db.direct[key], members, None, db.direct[key]); }
    SeatedOwners(db.seats, id, members, Some(owner), id);
  }

  function PairKey(owner: Owner, ids: seq<Owner>): string {
    var members := Members([owner] + ids);
    if |members| == 2 then DirectKeyFor(members[0], members[1]) else ""
  }

  /** Who may add people: an active admin of a group, naming someone and nobody empty, with room for all of them. */
  lemma MayAddIff(db: Db, c: Id, asker: Owner, ids: seq<Owner>, cap: nat)
    ensures MayAdd(db, c, asker, ids, cap) <==>
      && c in db.conversations && db.conversations[c].directKey == None
      && Seat(c, asker) in db.seats && db.seats[Seat(c, asker)] == Participant(true, true)
      && |ids| > 0 && (forall o :: o in ids ==> o != "")
      && |ActiveOwners(db.seats, c) + (set o | o in ids)| <= cap
  {
    assert SetOf(ids) == set o | o in ids;
    hide ActiveOwners, SetOf;
  }

  /** Leaving makes one seat inactive, keeps its role, and changes nothing else. */
  lemma LeaveMakesInactive(db: Db, c: Id, o: Owner, cap: nat)
    requires c in db.conversations && Seat(c, o) in db.seats
    ensures var after := Apply(db, Leave(c, o), cap);
      after == db.(seats := db.seats[Seat(c, o) := Participant(false, db.seats[Seat(c, o)].admin)])
  {
    var before, after := db.seats, Apply(db, Leave(c, o), cap).seats;
    if !before[Seat(c, o)].active {
      assert before[Seat(c, o)] == Participant(false, before[Seat(c, o)].admin);
      assert before == before[Seat(c, o) := before[Seat(c, o)]];
    }
  }

  /** A new message is kept with its time, and moves both times of its conversation no further than to its millisecond. */
  lemma SendTouches(db: Db, c: Id, o: Owner, clientId: string, at: int, cap: nat)
    requires c in db.conversations && MessageKey(c, o, clientId) !in db.messages
    ensures var after, before := Apply(db, Send(c, o, clientId, at), cap), db.conversations[c];
      && after.messages == db.messages[MessageKey(c, o, clientId) := at] && after.seats == db.seats
      && after.conversations == db.conversations[c := after.conversations[c]]
      && var row := after.conversations[c];
      && row.directKey == before.directKey && row.createdBy == before.createdBy
      && row.lastMessageAt == (match before.lastMessageAt
                               case None => Some(FloorMs(at))
                               case Some(t) => if FloorMs(at) > t then Some(FloorMs(at)) else Some(t))
      && row.lastActivityAt == if FloorMs(at) > before.lastActivityAt then FloorMs(at) else before.lastActivityAt
  {
    hide FloorMs;
  }

  /** A call moves the activity time to its instant, and never back. */
  lemma CallTouches(db: Db, c: Id, at: int, cap: nat)
    requires c in db.conversations
    ensures var after, before := Apply(db, ProjectCall(c, at), cap), db.conversations[c];
      after == db.(conversations := db.conversations[c :=
        before.(lastActivityAt := if at > before.lastActivityAt then at else before.lastActivityAt)])
  {
  }

  // Admins.

  /** Everyone seated has a name, and in each conversation the one admin is its creator. */
  predicate CreatorsAreAdmins(db: Db) {
    && (forall s :: s in db.seats && s.conversation in db.conversations ==>
          s.owner != "" && (db.seats[s].admin <==> s.owner == db.conversations[s.conversation].createdBy))
    && (forall c :: c in db.conversations && db.conversations[c].createdBy != "" ==> Seat(c, db.conversations[c].createdBy) in db.seats)
  }

  /** Seating keeps every role there is; a new seat has the role asked for. */
  lemma SeatedRoles(seats: map<Seat, Participant>, c: Id, owners: seq<Owner>, admin: Option<Owner>, s: Seat)
    ensures s in Seated(seats, c, owners, admin) <==> s in seats || (s.conversation == c && s.owner in owners)
    ensures s in Seated(seats, c, owners, admin) ==>
      (Seated(seats, c, owners, admin)[s].admin <==> if s in seats then seats[s].admin else Some(s.owner) == admin)
  {
    SeatedKeys(seats, c, owners, admin);
  }

  /** Seating people in a conversation that is there makes nobody an admin. */
  lemma SeatingKeepsAdmins(db: Db, c: Id, owners: seq<Owner>)
    requires CreatorsAreAdmins(db) && "" !in owners
    ensures CreatorsAreAdmins(db.(seats := Seated(db.seats, c, owners, None)))
  {
    hide Seated;
    var seats := Seated(db.seats, c, owners, None);
    forall s ensures s in seats <==> s in db.seats || (s.conversation == c && s.owner in owners) {
      SeatedRoles(db.seats, c, owners, None, s);
    }
    forall s | s in seats && s.conversation in db.conversations
      ensures s.owner != "" && (seats[s].admin <==> s.owner == db.conversations[s.conversation].createdBy)
    {
      SeatedRoles(db.seats, c, owners, None, s);
    }
  }

  lemma NewConversationKeepsAdmins(db: Db, id: Id, owner: Owner, owners: seq<Owner>, key: Option<string>,
        direct: map<string, Id>, now: int)
    requires Linked(db) && CreatorsAreAdmins(db) && id !in db.conversations
    requires "" !in owners && (owner != "" ==> owner in owners)
    ensures CreatorsAreAdmins(
      Db(db.conversations[id := Conversation(key, owner, None, now)], direct, Seated(db.seats, id, owners, Some(owner)), db.messages))
  {
    hide Seated;
    var seats := Seated(db.seats, id, owners, Some(owner));
    var conversations := db.conversations[id := Conversation(key, owner, None, now)];
    forall s ensures s in seats <==> s in db.seats || (s.conversation == id && s.owner in owners) {
      SeatedRoles(db.seats, id, owners, Some(owner), s);
    }
    forall s | s in seats && s.conversation in conversations
      ensures s.owner != "" && (seats[s].admin <==> s.owner == conversations[s.conversation].createdBy)
    {
      SeatedRoles(db.seats, id, owners, Some(owner), s);
    }
  }

  lemma CreatedKeepsAdmins(db: Db, id: Id, owner: Owner, direct: bool, ids: seq<Owner>, now: int, cap: nat)
    requires Linked(db) && CreatorsAreAdmins(db) && id !in db.conversations && MayCreate(owner, direct, ids, cap)
    ensures CreatorsAreAdmins(Created(db, id, owner, direct, ids, now))
  {
    var members := Members([owner] + ids);
    MembersAre([owner] + ids);
    assert owner in [owner] + ids;
    hide Members, Seated, DirectKeyFor, CreatorsAreAdmins, Linked;
    if direct {
      var key := DirectKeyFor(members[0], members[1]);
      if key in db.direct {
        SeatingKeepsAdmins(db, db.direct[key], members);
      } else {
        NewConversationKeepsAdmins(db, id, owner, members, Some(key), db.direct[key := id], now);
      }
    } else {
      NewConversationKeepsAdmins(db, id, owner, members, None, db.direct, now);
    }
  }

  lemma StepKeepsAdmins(db: Db, op: Op, cap: nat)
    requires Linked(db) && CreatorsAreAdmins(db)
    ensures CreatorsAreAdmins(Apply(db, op, cap))
  {
    hide MayCreate, Created, Seated, ActiveOwners, SetOf;
    match op
    case Create(id, owner, direct, ids, now) =>
      if id !in db.conversations && MayCreate(owner, direct, ids, cap) { CreatedKeepsAdmins(db, id, owner, direct, ids, now, cap); }
    case Add(c, ids) => if AddHappens(db, c, ids) { SeatingKeepsAdmins(db, c, ids); }
    case Leave(c, o) =>
    case Send(c, o, clientId, at) =>
    case ProjectCall(c, at) =>
  }

  // Times.

  predicate In(m: MessageKey, c: Id) { m.conversation == c }

  /** The conversation's message time is the latest of its messages' times, in milliseconds. */
  ghost predicate LatestIsRight(messages: map<MessageKey, int>, c: Id, conversation: Conversation) {
    match conversation.lastMessageAt
    case None => forall m :: m in messages ==> !In(m, c)
    case Some(t) =>
      && (forall m :: m in messages && In(m, c) ==> FloorMs(messages[m]) <= t)
      && (exists m :: m in messages && In(m, c) && FloorMs(messages[m]) == t)
      && t <= conversation.lastActivityAt
  }

  ghost predicate TimesAreRight(db: Db) {
    forall c :: c in db.conversations ==> LatestIsRight(db.messages, c, db.conversations[c])
  }

  lemma SentKeepsTimes(db: Db, key: MessageKey, at: int)
    requires Linked(db) && TimesAreRight(db) && key.conversation in db.conversations
    ensures TimesAreRight(Sent(db, key, at))
  {
    hide FloorMs;
    var after := Sent(db, key, at);
    if key !in db.messages {
      forall c | c in after.conversations
        ensures LatestIsRight(after.messages, c, after.conversations[c])
      {
        assert LatestIsRight(db.messages, c, db.conversations[c]);
        assert key in after.messages;
        assert forall m :: m in db.messages ==> m in after.messages && after.messages[m] == db.messages[m];
        if db.conversations[c].lastMessageAt.Some? {
          var m :| m in db.messages && In(m, c) && FloorMs(db.messages[m]) == db.conversations[c].lastMessageAt.value;
          assert m in after.messages;
        }
      }
    }
  }

  lemma StepKeepsTimes(db: Db, op: Op, cap: nat)
    requires Linked(db) && TimesAreRight(db)
    ensures TimesAreRight(Apply(db, op, cap))
  {
    hide MayCreate, AddHappens, Seated, FloorMs, Members, DirectKeyFor;
    match op
    case Create(id, owner, direct, ids, now) =>
    case Add(c, ids) =>
    case Leave(c, o) =>
    case Send(c, o, clientId, at) =>
      if c in db.conversations { SentKeepsTimes(db, MessageKey(c, o, clientId), at); }
    case ProjectCall(c, at) =>
      forall d | d in db.conversations
        ensures LatestIsRight(db.messages, d, Apply(db, op, cap).conversations[d])
      {
        assert LatestIsRight(db.messages, d, db.conversations[d]);
      }
  }

  // Runs.

  ghost predicate Inv(db: Db) {
    Linked(db) && CreatorsAreAdmins(db) && TimesAreRight(db)
  }

  lemma {:induction false} RunKeepsInv(ops: seq<Op>, cap: nat)
    ensures Inv(Run(ops, cap))
  {
    hide Apply;
    if ops != [] {
      var before, op := Run(ops[..|ops| - 1], cap), ops[|ops| - 1];
      RunKeepsInv(ops[..|ops| - 1], cap);
      hide Linked, CreatorsAreAdmins, TimesAreRight;
      StepKeepsLinked(before, op, cap);
      StepKeepsAdmins(before, op, cap);
      StepKeepsTimes(before, op, cap);
    }
  }

  /**
   * Over every run a conversation's only admin seat is its creator's: leaving, returning and being
   * added change no role.
   */
  lemma OnlyTheCreatorIsAdmin(ops: seq<Op>, cap: nat, s: Seat)
    requires s in Run(ops, cap).seats
    ensures var db := Run(ops, cap);
      s.conversation in db.conversations && (db.seats[s].admin <==> s.owner == db.conversations[s.conversation].createdBy)
  {
    RunKeepsInv(ops, cap);
  }

  /** The message time is the largest time of any message, as the driver reads it, and activity is never before it. */
  lemma LatestMessageIsKnown(ops: seq<Op>, cap: nat, c: Id)
    requires c in Run(ops, cap).conversations
    ensures var db := Run(ops, cap);
      var latest := db.conversations[c].lastMessageAt;
      && (latest.None? <==> forall m :: m in db.messages ==> m.conversation != c)
      && (latest.Some? ==>
            && (forall m :: m in db.messages && m.conversation == c ==> FloorMs(db.messages[m]) <= latest.value)
            && (exists m :: m in db.messages && m.conversation == c && FloorMs(db.messages[m]) == latest.value)
            && latest.value <= db.conversations[c].lastActivityAt)
  {
    RunKeepsInv(ops, cap);
  }

  lemma StepNeverRewinds(db: Db, op: Op, cap: nat, c: Id)
    requires Linked(db) && c in db.conversations
    ensures c in Apply(db, op, cap).conversations
      && db.conversations[c].lastActivityAt <= Apply(db, op, cap).conversations[c].lastActivityAt
  {
    hide MayCreate, AddHappens, Seated, FloorMs, Members, DirectKeyFor;
  }

  /** A conversation's activity time never decreases. */
  lemma {:induction false} ActivityNeverDecreases(ops: seq<Op>, more: seq<Op>, cap: nat, c: Id)
    requires c in Run(ops, cap).conversations
    ensures c in Run(ops + more, cap).conversations
      && Run(ops, cap).conversations[c].lastActivityAt <= Run(ops + more, cap).conversations[c].lastActivityAt
  {
    hide Apply;
    if more == [] {
      assert ops + more == ops;
    } else {
      var last := |more| - 1;
      ActivityNeverDecreases(ops, more[..last], cap, c);
      assert (ops + more)[..|ops| + last] == ops + more[..last];
      RunKeepsInv(ops + more[..last], cap);
      StepNeverRewinds(Run(ops + more[..last], cap), more[last], cap, c);
    }
  }

  /** A message sent again under its client id changes nothing, at any later time and whatever else happened. */
  lemma {:induction false} ResendChangesNothing(ops: seq<Op>, cap: nat, c: Id, o: Owner, clientId: string,
        at: int, more: seq<Op>, again: int)
    requires c in Run(ops, cap).conversations
    ensures var db := Run(ops + [Send(c, o, clientId, at)] + more, cap);
      Apply(db, Send(c, o, clientId, again), cap) == db
  {
    MessageStays(ops + [Send(c, o, clientId, at)], more, cap, MessageKey(c, o, clientId));
  }

  lemma {:induction false} MessageStays(ops: seq<Op>, more: seq<Op>, cap: nat, key: MessageKey)
    requires key in Run(ops, cap).messages
    ensures key in Run(ops + more, cap).messages
  {
    hide Apply;
    if more == [] {
      assert ops + more == ops;
    } else {
      var last := |more| - 1;
      MessageStays(ops, more[..last], cap, key);
      assert ops + more == (ops + more[..last]) + [more[last]];
      RunSnoc(ops + more[..last], more[last], cap);
      MessageStaysInStep(Run(ops + more[..last], cap), more[last], cap, key);
    }
  }

  lemma MessageStaysInStep(db: Db, op: Op, cap: nat, key: MessageKey)
    requires key in db.messages
    ensures key in Apply(db, op, cap).messages
  {
    hide MayCreate, AddHappens, Seated, FloorMs, Members, DirectKeyFor;
  }

  lemma MembersOfTwo(a: Owner, b: Owner)
    requires a != b && a != "" && b != ""
    ensures Members([a] + [b]) == [a, b]
  {
    assert ([a] + [b])[..1] == [a] && [a][..0] == [] && [a, b][..1] == [a];
    assert Distinct([a]) == [a] && Distinct([a] + [b]) == [a, b];
    assert NonEmpty([a]) == [a];
  }
}
