/**
 * Direct conversations: one per pair, found again by a key made of the two ids.
 */
module DirectConversations {
  import opened Collections
  import opened Conversations
  import opened Options

  predicate IsDirect(db: Db, c: Id) {
    c in db.conversations && db.conversations[c].directKey.Some?
  }

  /** Two direct conversations never hold the same pair, and each holds exactly two people. */
  ghost predicate DirectsAreUnique(db: Db) {
    && (forall c :: IsDirect(db, c) ==> |Owners(db.seats, c)| == 2)
    && (forall c, d :: IsDirect(db, c) && IsDirect(db, d) && Owners(db.seats, c) == Owners(db.seats, d) ==> c == d)
  }

  // What has been opened.

  /** The step opens or reopens a pair's conversation. */
  predicate Opens(db: Db, op: Op, cap: nat) {
    op.Create? && op.direct && op.id !in db.conversations && MayCreate(op.owner, true, op.ids, cap)
  }

  function PairOf(op: Op): seq<Owner>
    requires op.Create?
  {
    Members([op.owner] + op.ids)
  }

  function KeyOf(op: Op): string
    requires op.Create? && |PairOf(op)| == 2
  {
    DirectKeyFor(PairOf(op)[0], PairOf(op)[1])
  }

  predicate OpensKey(db: Db, op: Op, cap: nat, key: string) {
    Opens(db, op, cap) && KeyOf(op) == key
  }

  /** Everyone who was ever in a pair opened under a key. */
  function Opened(ops: seq<Op>, cap: nat, key: string): set<Owner> {
    if ops == [] then {}
    else
      var last := |ops| - 1;
      var before := Opened(ops[..last], cap, key);
      if OpensKey(Run(ops[..last], cap), ops[last], cap, key) then before + SetOf(PairOf(ops[last])) else before
  }

  lemma PairIsTwo(op: Op, cap: nat)
    requires op.Create? && MayCreate(op.owner, true, op.ids, cap)
    ensures |PairOf(op)| == 2 && PairOf(op)[0] != PairOf(op)[1] && SetOf(PairOf(op)) == {PairOf(op)[0], PairOf(op)[1]}
    ensures |SetOf(PairOf(op))| == 2
  {
    MembersAre([op.owner] + op.ids);
    var pair := PairOf(op);
    assert SetOf(pair) == {pair[0], pair[1]};
  }

  /** A key is in use once a pair was opened under it. */
  ghost predicate KeyIsOpened(db: Db, ops: seq<Op>, cap: nat, k: string) {
    k in db.direct <==> Opened(ops, cap, k) != {}
  }

  /** The seats of a direct conversation are those of every pair opened under its key. */
  ghost predicate SeatsAreOpened(db: Db, ops: seq<Op>, cap: nat, c: Id) {
    IsDirect(db, c) ==> Owners(db.seats, c) == Opened(ops, cap, db.conversations[c].directKey.value)
  }

  ghost predicate DirectsAreOpened(db: Db, ops: seq<Op>, cap: nat) {
    && (forall k :: KeyIsOpened(db, ops, cap, k))
    && (forall c :: SeatsAreOpened(db, ops, cap, c))
  }

  lemma OpenedSnoc(ops: seq<Op>, op: Op, cap: nat, key: string)
    ensures Opened(ops + [op], cap, key)
         == Opened(ops, cap, key) + (if OpensKey(Run(ops, cap), op, cap, key) then SetOf(PairOf(op)) else {})
  {
    assert (ops + [op])[..|ops|] == ops;
    hide Run, OpensKey;
  }

  /** What opening a pair does to the seats of direct conversations. */
  lemma OpeningSeats(db: Db, op: Op, cap: nat, c: Id)
    requires Linked(db) && Opens(db, op, cap) && |PairOf(op)| == 2
    ensures var after, key := Apply(db, op, cap), KeyOf(op);
      && (forall k :: k in after.direct <==> k in db.direct || k == key)
      && (IsDirect(after, c) <==> IsDirect(db, c) || (c == op.id && key !in db.direct))
      && (IsDirect(db, c) ==> after.conversations[c].directKey == db.conversations[c].directKey)
      && (IsDirect(db, c) ==>
            Owners(after.seats, c)
            == Owners(db.seats, c) + (if db.conversations[c].directKey == Some(key) then SetOf(PairOf(op)) else {}))
      && (c == op.id && key !in db.direct ==>
            after.conversations[c].directKey == Some(key) && Owners(after.seats, c) == SetOf(PairOf(op)))
  {
    var key, pair := KeyOf(op), PairOf(op);
    NobodySeated(db, op.id);
    hide Members, Seated, DirectKeyFor, ActiveOwners, Owners, SetOf, KeyOf;
    var target := if key in db.direct then db.direct[key] else op.id;
    assert key == DirectKeyFor(pair[0], pair[1]) by { KeyIs(op); }
    SeatedOwners(db.seats, target, pair, None, c);
    SeatedOwners(db.seats, op.id, pair, Some(op.owner), c);
  }

  lemma KeyIs(op: Op)
    requires op.Create? && |PairOf(op)| == 2
    ensures KeyOf(op) == DirectKeyFor(PairOf(op)[0], PairOf(op)[1])
  {
  }

  lemma OpeningAddsThePair(ops: seq<Op>, op: Op, cap: nat, k: string)
    requires Opens(Run(ops, cap), op, cap) && |PairOf(op)| == 2
    ensures Opened(ops + [op], cap, k) == Opened(ops, cap, k) + (if k == KeyOf(op) then SetOf(PairOf(op)) else {})
  {
    OpenedSnoc(ops, op, cap, k);
    hide Run, Opened, SetOf, PairOf, KeyOf, Opens;
  }

  lemma OpeningKeepsKey(ops: seq<Op>, op: Op, cap: nat, k: string)
    requires KeyIsOpened(Run(ops, cap), ops, cap, k) && Linked(Run(ops, cap)) && Opens(Run(ops, cap), op, cap)
    ensures KeyIsOpened(Apply(Run(ops, cap), op, cap), ops + [op], cap, k)
  {
    PairIsTwo(op, cap);
    OpeningSeats(Run(ops, cap), op, cap, op.id);
    OpeningAddsThePair(ops, op, cap, k);
    hide Apply, Run, Opened, Owners, SetOf, KeyOf, PairOf, Opens, Linked;
    assert SetOf(PairOf(op)) != {};
  }

  lemma OpeningKeepsSeats(ops: seq<Op>, op: Op, cap: nat, c: Id)
    requires DirectsAreOpened(Run(ops, cap), ops, cap) && Linked(Run(ops, cap)) && Opens(Run(ops, cap), op, cap)
    ensures SeatsAreOpened(Apply(Run(ops, cap), op, cap), ops + [op], cap, c)
  {
    var db := Run(ops, cap);
    PairIsTwo(op, cap);
    OpeningSeats(db, op, cap, c);
    hide Apply, Run, Opened, Owners, SetOf, KeyOf, PairOf, Opens, Linked;
    assert SeatsAreOpened(db, ops, cap, c) && KeyIsOpened(db, ops, cap, KeyOf(op));
    hide DirectsAreOpened;
    if IsDirect(db, c) { OpeningAddsThePair(ops, op, cap, db.conversations[c].directKey.value); }
    OpeningAddsThePair(ops, op, cap, KeyOf(op));
  }

  /** No other step touches a direct conversation's seats or keys. */
  lemma OthersKeepSeats(db: Db, op: Op, cap: nat, c: Id)
    requires Linked(db) && !Opens(db, op, cap)
    ensures var after := Apply(db, op, cap);
      && after.direct == db.direct
      && (IsDirect(after, c) <==> IsDirect(db, c))
      && (IsDirect(db, c) ==>
            after.conversations[c].directKey == db.conversations[c].directKey && Owners(after.seats, c) == Owners(db.seats, c))
  {
    match op
    case Create(id, owner, direct, ids, now) =>
      hide Seated, Owners, SetOf, Members;
      SeatedOwners(db.seats, id, Members([owner] + ids), Some(owner), c);
    case Add(d, ids) =>
      hide Seated, Owners, SetOf;
      SeatedOwners(db.seats, d, ids, None, c);
    case Leave(d, o) => assert Apply(db, op, cap).seats.Keys == db.seats.Keys;
    case Send(_, _, _, _) =>
    case ProjectCall(_, _) =>
  }

  lemma OtherStepKeepsDirects(ops: seq<Op>, op: Op, cap: nat, k: string, c: Id)
    requires DirectsAreOpened(Run(ops, cap), ops, cap) && Linked(Run(ops, cap)) && !Opens(Run(ops, cap), op, cap)
    ensures KeyIsOpened(Apply(Run(ops, cap), op, cap), ops + [op], cap, k)
    ensures SeatsAreOpened(Apply(Run(ops, cap), op, cap), ops + [op], cap, c)
  {
    hide Apply, Run, Opened, Owners, Opens, Linked;
    var db := Run(ops, cap);
    assert SeatsAreOpened(db, ops, cap, c) && KeyIsOpened(db, ops, cap, k);
    hide DirectsAreOpened;
    OthersKeepSeats(db, op, cap, c);
    OpenedSnoc(ops, op, cap, k);
    if IsDirect(db, c) { OpenedSnoc(ops, op, cap, db.conversations[c].directKey.value); }
  }

  lemma StepKeepsDirects(ops: seq<Op>, op: Op, cap: nat)
    requires DirectsAreOpened(Run(ops, cap), ops, cap) && Linked(Run(ops, cap))
    ensures DirectsAreOpened(Apply(Run(ops, cap), op, cap), ops + [op], cap)
  {
    hide Apply, Run, Linked, Opens, KeyIsOpened, SeatsAreOpened;
    forall k ensures KeyIsOpened(Apply(Run(ops, cap), op, cap), ops + [op], cap, k) {
      if Opens(Run(ops, cap), op, cap) { OpeningKeepsKey(ops, op, cap, k); } else { OtherStepKeepsDirects(ops, op, cap, k, 0); }
    }
    forall c ensures SeatsAreOpened(Apply(Run(ops, cap), op, cap), ops + [op], cap, c) {
      if Opens(Run(ops, cap), op, cap) { OpeningKeepsSeats(ops, op, cap, c); } else { OtherStepKeepsDirects(ops, op, cap, "", c); }
    }
  }

  lemma {:induction false} RunSeatsWhatWasOpened(ops: seq<Op>, cap: nat)
    ensures DirectsAreOpened(Run(ops, cap), ops, cap)
  {
    hide Apply, Run, KeyIsOpened, SeatsAreOpened, Linked;
    if ops == [] {
      forall k ensures KeyIsOpened(Run(ops, cap), ops, cap, k) { NothingOpened(ops, cap, k, 0); }
      forall c ensures SeatsAreOpened(Run(ops, cap), ops, cap, c) { NothingOpened(ops, cap, "", c); }
    } else {
      hide DirectsAreOpened;
      var init, op := ops[..|ops| - 1], ops[|ops| - 1];
      RunSeatsWhatWasOpened(init, cap);
      RunKeepsInv(init, cap);
      assert ops == init + [op];
      RunSnoc(init, op, cap);
      StepKeepsDirects(init, op, cap);
    }
  }

  lemma NothingOpened(ops: seq<Op>, cap: nat, k: string, c: Id)
    requires ops == []
    ensures KeyIsOpened(Run(ops, cap), ops, cap, k) && SeatsAreOpened(Run(ops, cap), ops, cap, c)
  {
    hide Owners;
    assert Run(ops, cap) == EMPTY;
  }

  // Uniqueness.

  /** Some step opened this key with this pair. */
  ghost predicate OpenedAt(ops: seq<Op>, cap: nat, i: nat, key: string) {
    i < |ops| && OpensKey(Run(ops[..i], cap), ops[i], cap, key)
  }

  function PairAt(ops: seq<Op>, i: nat): set<Owner>
    requires i < |ops|
  {
    if ops[i].Create? then SetOf(PairOf(ops[i])) else {}
  }

  ghost predicate NoKeyIsShared(ops: seq<Op>, cap: nat) {
    forall i: nat, j: nat, k ::
      OpenedAt(ops, cap, i, k) && OpenedAt(ops, cap, j, k) ==> PairAt(ops, i) == PairAt(ops, j)
  }

  lemma {:induction false} OpenedHolds(ops: seq<Op>, cap: nat, i: nat, key: string)
    requires OpenedAt(ops, cap, i, key)
    ensures PairAt(ops, i) <= Opened(ops, cap, key)
  {
    hide Run, OpensKey, PairOf, SetOf;
    var last := |ops| - 1;
    if i < last {
      assert ops[..last][..i] == ops[..i];
      OpenedHolds(ops[..last], cap, i, key);
    }
  }

  lemma {:induction false} OpenedBySomeone(ops: seq<Op>, cap: nat, key: string) returns (i: nat)
    requires Opened(ops, cap, key) != {}
    ensures OpenedAt(ops, cap, i, key)
  {
    hide Run, OpensKey, PairOf, SetOf;
    var last := |ops| - 1;
    if OpensKey(Run(ops[..last], cap), ops[last], cap, key) {
      i := last;
    } else {
      i := OpenedBySomeone(ops[..last], cap, key);
      assert ops[..last][..i] == ops[..i];
    }
  }

  /** When all who opened a key were the same pair, only they were opened under it. */
  lemma {:induction false} OpenedIsThePair(ops: seq<Op>, cap: nat, key: string, pair: set<Owner>)
    requires forall j: nat :: OpenedAt(ops, cap, j, key) ==> PairAt(ops, j) == pair
    ensures Opened(ops, cap, key) <= pair
  {
    hide Run, MayCreate, KeyOf, PairOf, SetOf;
    if ops == [] {
      assert Opened(ops, cap, key) == {};
    } else {
      var last := |ops| - 1;
      forall j: nat | OpenedAt(ops[..last], cap, j, key) ensures PairAt(ops[..last], j) == pair {
        assert ops[..last][..j] == ops[..j];
        assert OpenedAt(ops, cap, j, key);
      }
      OpenedIsThePair(ops[..last], cap, key, pair);
      if OpensKey(Run(ops[..last], cap), ops[last], cap, key) { assert OpenedAt(ops, cap, last, key); }
    }
  }

  /** The same two people make the same key, whoever opens. */
  lemma SamePairSameKey(p: Op, q: Op, cap: nat)
    requires p.Create? && q.Create? && MayCreate(p.owner, true, p.ids, cap) && MayCreate(q.owner, true, q.ids, cap)
    requires SetOf(PairOf(p)) == SetOf(PairOf(q))
    ensures |PairOf(p)| == 2 && |PairOf(q)| == 2 && KeyOf(p) == KeyOf(q)
  {
    PairIsTwo(p, cap);
    PairIsTwo(q, cap);
    hide MayCreate, PairOf, DirectKeyFor, SetOf;
    var a, b, c, d := PairOf(p)[0], PairOf(p)[1], PairOf(q)[0], PairOf(q)[1];
    assert a in {c, d} && b in {c, d};
    KeyIgnoresOrder(a, b);
  }

  lemma SubsetOfSameSize(a: set<Owner>, b: set<Owner>)
    requires a <= b && |a| == |b|
    ensures a == b
  {
    assert b == a + (b - a);
  }

  lemma ThreeAreNotTwo(people: set<Owner>, p: set<Owner>, q: set<Owner>)
    requires |p| == 2 && |q| == 2 && p != q && p <= people && q <= people
    ensures |people| > 2
  {
    if q <= p { SubsetOfSameSize(q, p); }
    var x :| x in q && x !in p;
    CountOfSubset(p + {x}, people);
  }

  /** What the run has put under a key and in a conversation. */
  lemma RunHolds(ops: seq<Op>, cap: nat, k: string, c: Id)
    ensures var db := Run(ops, cap);
      && KeyIsOpened(db, ops, cap, k) && SeatsAreOpened(db, ops, cap, c)
      && (k in db.direct ==> SeatsAreOpened(db, ops, cap, db.direct[k]))
      && (IsDirect(db, c) ==> KeyIsOpened(db, ops, cap, db.conversations[c].directKey.value))
  {
    RunSeatsWhatWasOpened(ops, cap);
    RunKeepsInv(ops, cap);
    hide Run, KeyIsOpened, SeatsAreOpened, Linked;
  }

  lemma SharedKeyIsNotUnique(ops: seq<Op>, cap: nat, i: nat, j: nat, key: string)
    requires OpenedAt(ops, cap, i, key) && OpenedAt(ops, cap, j, key) && PairAt(ops, i) != PairAt(ops, j)
    ensures !DirectsAreUnique(Run(ops, cap))
  {
    PairIsTwo(ops[i], cap);
    PairIsTwo(ops[j], cap);
    OpenedHolds(ops, cap, i, key);
    OpenedHolds(ops, cap, j, key);
    RunKeepsInv(ops, cap);
    RunHolds(ops, cap, key, 0);
    hide Run, Opened, PairOf, Owners, OpensKey, SetOf;
    var db := Run(ops, cap);
    assert key in db.direct;
    var c := db.direct[key];
    assert IsDirect(db, c) && db.conversations[c].directKey == Some(key);
    ThreeAreNotTwo(Owners(db.seats, c), PairAt(ops, i), PairAt(ops, j));
  }

  /** With no shared key, a direct conversation holds exactly the pair that opened it. */
  lemma HoldsItsPair(ops: seq<Op>, cap: nat, c: Id) returns (i: nat)
    requires NoKeyIsShared(ops, cap) && IsDirect(Run(ops, cap), c)
    ensures OpenedAt(ops, cap, i, Run(ops, cap).conversations[c].directKey.value)
    ensures Owners(Run(ops, cap).seats, c) == PairAt(ops, i)
  {
    RunKeepsInv(ops, cap);
    RunHolds(ops, cap, "", c);
    hide Run, Opened, PairOf, Owners, OpensKey, SetOf;
    var db := Run(ops, cap);
    var key := db.conversations[c].directKey.value;
    i := OpenedBySomeone(ops, cap, key);
    OpenedHolds(ops, cap, i, key);
    OpenedIsThePair(ops, cap, key, PairAt(ops, i));
  }

  lemma UnsharedKeysAreUnique(ops: seq<Op>, cap: nat)
    requires NoKeyIsShared(ops, cap)
    ensures DirectsAreUnique(Run(ops, cap))
  {
    RunKeepsInv(ops, cap);
    RunHolds(ops, cap, "", 0);
    hide KeyIsOpened, SeatsAreOpened;
    hide Run, NoKeyIsShared, Owners, Opens, SetOf, PairOf, KeyOf;
    var db := Run(ops, cap);
    forall c | IsDirect(db, c) ensures |Owners(db.seats, c)| == 2 {
      var i := HoldsItsPair(ops, cap, c);
      OpenerIsTwo(ops, cap, i, db.conversations[c].directKey.value);
    }
    forall c, d | IsDirect(db, c) && IsDirect(db, d) && Owners(db.seats, c) == Owners(db.seats, d) ensures c == d {
      var i := HoldsItsPair(ops, cap, c);
      var j := HoldsItsPair(ops, cap, d);
      OpenersShareKey(ops, cap, i, j, db.conversations[c].directKey.value, db.conversations[d].directKey.value);
    }
  }

  lemma OpenerIsTwo(ops: seq<Op>, cap: nat, i: nat, key: string)
    requires OpenedAt(ops, cap, i, key)
    ensures |PairAt(ops, i)| == 2
  {
    PairIsTwo(ops[i], cap);
  }

  lemma OpenersShareKey(ops: seq<Op>, cap: nat, i: nat, j: nat, k: string, l: string)
    requires OpenedAt(ops, cap, i, k) && OpenedAt(ops, cap, j, l) && PairAt(ops, i) == PairAt(ops, j)
    ensures k == l
  {
    SamePairSameKey(ops[i], ops[j], cap);
  }

  /**
   * Over every run, each pair has at most one direct conversation with exactly its two seats, if and only if no two
   * different pairs that were opened share a key.
   */
  lemma DirectsAreUniqueIff(ops: seq<Op>, cap: nat)
    ensures DirectsAreUnique(Run(ops, cap)) <==> NoKeyIsShared(ops, cap)
  {
    hide Run, OpensKey, PairOf, SetOf, DirectsAreUnique;
    if NoKeyIsShared(ops, cap) {
      UnsharedKeysAreUnique(ops, cap);
    } else {
      var i: nat, j: nat, k :| OpenedAt(ops, cap, i, k) && OpenedAt(ops, cap, j, k) && PairAt(ops, i) != PairAt(ops, j);
      SharedKeyIsNotUnique(ops, cap, i, j, k);
    }
  }

  ghost predicate BarFree(op: Op) {
    op.Create? ==> '|' !in op.owner && forall o :: o in op.ids ==> '|' !in o
  }

  lemma BarFreePairsShareNoKey(p: Op, q: Op, cap: nat)
    requires p.Create? && q.Create? && MayCreate(p.owner, true, p.ids, cap) && MayCreate(q.owner, true, q.ids, cap)
    requires BarFree(p) && BarFree(q) && |PairOf(p)| == 2 && |PairOf(q)| == 2 && KeyOf(p) == KeyOf(q)
    ensures SetOf(PairOf(p)) == SetOf(PairOf(q))
  {
    PairIsTwo(p, cap);
    PairIsTwo(q, cap);
    MembersAre([p.owner] + p.ids);
    MembersAre([q.owner] + q.ids);
    var a, b, c, d := PairOf(p)[0], PairOf(p)[1], PairOf(q)[0], PairOf(q)[1];
    assert a in PairOf(p) && b in PairOf(p) && c in PairOf(q) && d in PairOf(q);
    hide MayCreate, DirectKeyFor, SetOf, Members;
    BarFreeKeyIsInjective(a, b, c, d);
  }

  /** Over every run with ids free of bars, a pair has at most one direct conversation, with exactly its two seats. */
  lemma OneDirectConversationPerPair(ops: seq<Op>, cap: nat)
    requires forall op :: op in ops ==> BarFree(op)
    ensures DirectsAreUnique(Run(ops, cap))
  {
    forall i: nat, j: nat, k | OpenedAt(ops, cap, i, k) && OpenedAt(ops, cap, j, k)
      ensures PairAt(ops, i) == PairAt(ops, j)
    {
      assert ops[i] in ops && ops[j] in ops;
      BarFreePairsShareNoKey(ops[i], ops[j], cap);
    }
    hide Run, OpenedAt, DirectsAreUnique;
    DirectsAreUniqueIff(ops, cap);
  }

  lemma OpeningIs(db: Db, id: Id, a: Owner, b: Owner)
    requires a != b && a != "" && b != "" && id !in db.conversations
    ensures Apply(db, Create(id, a, true, [b], 0), 2) ==
      if DirectKeyFor(a, b) in db.direct then db.(seats := Seated(db.seats, db.direct[DirectKeyFor(a, b)], [a, b], None))
      else
        Db(db.conversations[id := Conversation(Some(DirectKeyFor(a, b)), a, None, 0)], db.direct[DirectKeyFor(a, b) := id],
           Seated(db.seats, id, [a, b], Some(a)), db.messages)
  {
    MembersOfTwo(a, b);
    hide Members, DirectKeyFor, Seated;
  }

  /**
   * Opening a second pair's conversation makes its own exactly when the keys differ; else it joins the
   * first pair's.
   */
  lemma CollidingPairsShareAConversation(a: Owner, b: Owner, c: Owner, d: Owner)
    requires a != b && c != d && a != "" && b != "" && c != "" && d != ""
    ensures var db := Apply(Apply(EMPTY, Create(1, a, true, [b], 0), 2), Create(2, c, true, [d], 0), 2);
      && (2 in db.conversations <==> DirectKeyFor(a, b) != DirectKeyFor(c, d))
      && (2 !in db.conversations ==> Owners(db.seats, 1) == {a, b, c, d})
  {
    OpeningIs(EMPTY, 1, a, b);
    hide DirectKeyFor, Seated, Members, Owners, Apply;
    OpeningIs(Apply(EMPTY, Create(1, a, true, [b], 0), 2), 2, c, d);
    TwoSeatings(a, b, c, d);
  }

  lemma TwoSeatings(a: Owner, b: Owner, c: Owner, d: Owner)
    ensures Owners(Seated(Seated(map[], 1, [a, b], Some(a)), 1, [c, d], None), 1) == {a, b, c, d}
  {
    hide Seated;
    SeatedOwners(map[], 1, [a, b], Some(a), 1);
    SeatedOwners(Seated(map[], 1, [a, b], Some(a)), 1, [c, d], None, 1);
    assert Owners(map[], 1) == {};
    assert SetOf([a, b]) == {a, b} && SetOf([c, d]) == {c, d};
  }
}
