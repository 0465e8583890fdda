/**
 * The routes and services that change conversations, statement by statement, proved to be the steps of
 * `Conversations`. A route that checks in one statement and writes in a later one lets other requests' steps in
 * between.
 */
module ConversationRoutes {
  import opened Collections
  import opened Conversations
  import opened Keyset
  import opened Options

  datatype Reply = NewlyCreated | AlreadyThere | Refused | NotFound | Failed | Done

  class Messenger {
    var conversations: map<Id, Conversation>
    var direct: map<string, Id>
    var seats: map<Seat, Participant>
    var messages: map<MessageKey, int>

    constructor ()
      ensures State() == EMPTY
    {
      conversations, direct, seats, messages := map[], map[], map[], map[];
    }

    function State(): Db reads this {
      Db(conversations, direct, seats, messages)
    }

    /** One statement over a list of ids. It fails as a whole when a row comes up twice. */
    method UpsertParticipants(c: Id, owners: seq<Owner>, admin: Option<Owner>) returns (ok: bool)
      modifies this`seats
      ensures ok <==> AllDistinct(owners)
      ensures seats == if ok then Seated(old(seats), c, owners, admin) else old(seats)
    {
      var before := seats;
      var i := 0;
      assert seats == Seated(before, c, owners[..0], admin);
      while i < |owners|
        invariant 0 <= i <= |owners|
        invariant AllDistinct(owners[..i])
        invariant seats == Seated(before, c, owners[..i], admin)
      {
        var seat := Seat(c, owners[i]);
        if owners[i] in owners[..i] {
          assert !AllDistinct(owners);
          seats := before;
          return false;
        }
        var after :=
          if seat in seats then seats[seat := seats[seat].(active := true)]
          else seats[seat := Participant(true, Some(owners[i]) == admin)];
        SeatOneMore(before, c, owners[..i], owners[i], admin);
        assert owners[..i + 1] == owners[..i] + [owners[i]];
        seats := after;
        i := i + 1;
      }
      assert owners[..i] == owners;
      ok := true;
    }

    /** `created` is false when the pair's conversation was already there. */
    method CreateConversation(id: Id, owner: Owner, isDirect: bool, ids: seq<Owner>, now: int) returns (reply: Reply)
      requires id !in conversations
      modifies this
      ensures var members := Members([owner] + ids);
        if (isDirect && |members| != 2) || |members| < 2 then reply == Refused && State() == old(State())
        else
          && State() == Created(old(State()), id, owner, isDirect, ids, now)
          && reply == if isDirect && DirectKeyFor(members[0], members[1]) in old(direct) then AlreadyThere else NewlyCreated
    {
      var members := Members([owner] + ids);
      if isDirect && |members| != 2 { return Refused; }
      if |members| < 2 { return Refused; }
      MembersAre([owner] + ids);
      hide Members, DirectKeyFor, Seated;
      var created := true;
      var conversation := id;
      if isDirect {
        var key := DirectKeyFor(members[0], members[1]);
        if key in direct {
          conversation := direct[key];
          created := false;
        } else {
          conversations := conversations[id := Conversation(Some(key), owner, None, now)];
          direct := direct[key := id];
        }
      } else {
        conversations := conversations[id := Conversation(None, owner, None, now)];
      }
      var ok := UpsertParticipants(conversation, members, if created then Some(owner) else None);
      reply := if created then NewlyCreated else AlreadyThere;
    }

    method PostConversation(id: Id, owner: Owner, isDirect: bool, ids: seq<Owner>, now: int,
          cap: nat) returns (reply: Reply)
      requires id !in conversations
      modifies this
      ensures State() == Apply(old(State()), Create(id, owner, isDirect, ids, now), cap)
      ensures reply.Refused? <==> !MayCreate(owner, isDirect, ids, cap)
    {
      if !isDirect && |ids| + 1 > cap { return Refused; }
      reply := CreateConversation(id, owner, isDirect, ids, now);
    }

    /** Other requests' steps, between two statements of a route. */
    method Meanwhile(others: seq<Op>, cap: nat)
      modifies this
      ensures State() == RunFrom(old(State()), others, cap)
    {
      var after := RunFrom(State(), others, cap);
      conversations, direct, seats, messages := after.conversations, after.direct, after.seats, after.messages;
    }

    /** The check reads the members; the write comes after what others did, and fails when it names someone twice. */
    method PostParticipants(c: Id, asker: Owner, ids: seq<Owner>, cap: nat, others: seq<Op>) returns (reply: Reply)
      modifies this
      ensures reply in {NotFound, Refused, Failed, Done}
      ensures reply.NotFound? <==> ids != [] && "" !in ids && c !in old(conversations)
      ensures reply in {Failed, Done} <==> MayAdd(old(State()), c, asker, ids, cap)
      ensures reply.Failed? ==> !AllDistinct(ids)
      ensures reply.Done? ==> AllDistinct(ids)
      ensures State() ==
        if reply in {Failed, Done} then Apply(RunFrom(old(State()), others, cap), Add(c, ids), cap) else old(State())
    {
      if ids == [] || "" in ids { return Refused; }
      if c !in conversations { return NotFound; }
      if Seat(c, asker) !in seats || !seats[Seat(c, asker)].active || !seats[Seat(c, asker)].admin { return Refused; }
      if conversations[c].directKey.Some? { return Refused; }
      var total := |ActiveOwners(seats, c) + SetOf(ids)|;
      if total > cap { return Refused; }
      GroupStays(State(), others, cap, c);
      hide RunFrom, Seated;
      Meanwhile(others, cap);
      var ok := UpsertParticipants(c, ids, None);
      reply := if ok then Done else Failed;
    }

    method LeaveConversation(c: Id, o: Owner) returns (left: bool)
      requires forall s :: s in seats ==> s.conversation in conversations
      modifies this`seats
      ensures State() == Apply(old(State()), Leave(c, o), 0)
      ensures left <==> IsActive(old(State()), c, o)
    {
      var seat := Seat(c, o);
      if seat in seats && seats[seat].active {
        seats := seats[seat := seats[seat].(active := false)];
        return true;
      }
      left := false;
    }

    /** Accepts a message once per client id; answers with the time of the message that is stored. */
    method SendMessage(c: Id, sender: Owner, clientId: string, at: int) returns (created: bool, stored: int)
      requires c in conversations
      modifies this
      ensures State() == Sent(old(State()), MessageKey(c, sender, clientId), at)
      ensures created <==> MessageKey(c, sender, clientId) !in old(messages)
      ensures MessageKey(c, sender, clientId) in messages && stored == messages[MessageKey(c, sender, clientId)]
    {
      var key := MessageKey(c, sender, clientId);
      if key in messages { return false, messages[key]; }
      messages := messages[key := at];
      var driven := FloorMs(at);
      var row := conversations[c];
      if row.lastMessageAt.None? || row.lastMessageAt.value < driven { row := row.(lastMessageAt := Some(driven)); }
      if row.lastActivityAt < driven { row := row.(lastActivityAt := driven); }
      conversations := conversations[c := row];
      created, stored := true, at;
    }

    /** The sender is checked before the message is written, so they may leave in between. */
    method PostMessage(c: Id, sender: Owner, clientId: string, at: int, cap: nat, others: seq<Op>) returns (reply: Reply)
      modifies this
      ensures reply.NotFound? <==> !IsActive(old(State()), c, sender)
      ensures State() ==
        if reply.NotFound? then old(State())
        else Apply(RunFrom(old(State()), others, cap), Send(c, sender, clientId, at), cap)
      ensures !reply.NotFound? ==>
        reply == if MessageKey(c, sender, clientId) in RunFrom(old(State()), others, cap).messages then AlreadyThere
                 else NewlyCreated
    {
      if c !in conversations || Seat(c, sender) !in seats || !seats[Seat(c, sender)].active { return NotFound; }
      GroupStays(State(), others, cap, c);
      hide RunFrom;
      Meanwhile(others, cap);
      var created, stored := SendMessage(c, sender, clientId, at);
      reply := if created then NewlyCreated else AlreadyThere;
    }
  }

  lemma SeatOneMore(before: map<Seat, Participant>, c: Id, owners: seq<Owner>, o: Owner, admin: Option<Owner>)
    requires o !in owners
    ensures var seats, seat := Seated(before, c, owners, admin), Seat(c, o);
      Seated(before, c, owners + [o], admin)
      == if seat in seats then seats[seat := seats[seat].(active := true)]
         else seats[seat := Participant(true, Some(o) == admin)]
  {
    var seats, seat := Seated(before, c, owners, admin), Seat(c, o);
    SeatedKeys(before, c, owners, admin);
    SeatedKeys(before, c, owners + [o], admin);
    var after := Seated(before, c, owners + [o], admin);
    assert after.Keys == seats.Keys + {seat};
    forall s | s in seats && s != seat ensures after[s] == seats[s] {}
  }

  lemma ConversationStays(db: Db, op: Op, cap: nat, c: Id)
    requires c in db.conversations
    ensures c in Apply(db, op, cap).conversations && Apply(db, op, cap).conversations[c].directKey == db.conversations[c].directKey
  {
    hide MayCreate, AddHappens, Seated, FloorMs, Members, DirectKeyFor;
  }

  /** A group stays a group whatever others do. */
  lemma {:induction false} GroupStays(db: Db, others: seq<Op>, cap: nat, c: Id)
    requires c in db.conversations
    ensures var after := RunFrom(db, others, cap);
      c in after.conversations && after.conversations[c].directKey == db.conversations[c].directKey
  {
    hide Apply;
    if others != [] {
      GroupStays(db, others[..|others| - 1], cap, c);
      ConversationStays(RunFrom(db, others[..|others| - 1], cap), others[|others| - 1], cap, c);
    }
  }
}
