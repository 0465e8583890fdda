/**
 * The cap on a group's members. Adding people checks the room first and writes in a later statement, so two adds can
 * both find room that only one of them gets.
 */
module GroupCap {
  import opened Collections
  import opened Conversations
  import opened Options

  predicate WithinCap(db: Db, c: Id, cap: nat) {
    IsGroup(db, c) ==> |ActiveOwners(db.seats, c)| <= cap
  }

  /** An add's write that takes effect finds the room its check looked for. */
  predicate FitsIfAdded(db: Db, op: Op, c: Id, cap: nat) {
    op.Add? && op.conversation == c && AddHappens(db, c, op.ids) ==> Fits(db, c, op.ids, cap)
  }

  lemma {:induction false} CountOfSet(owners: seq<Owner>)
    ensures |SetOf(owners)| <= |owners|
  {
    if owners == [] {
      assert SetOf(owners) == {};
    } else {
      var last := |owners| - 1;
      CountOfSet(owners[..last]);
      assert owners == owners[..last] + [owners[last]];
      assert SetOf(owners) == SetOf(owners[..last]) + {owners[last]};
    }
  }

  lemma CreateKeepsCap(db: Db, op: Op, c: Id, cap: nat)
    requires Linked(db) && WithinCap(db, c, cap) && op.Create?
    ensures WithinCap(Apply(db, op, cap), c, cap)
  {
    if op.id !in db.conversations && MayCreate(op.owner, op.direct, op.ids, cap) {
      var members := Members([op.owner] + op.ids);
      MembersAre([op.owner] + op.ids);
      NobodySeated(db, op.id);
      CountOfSet(members);
      hide Members, Seated, DirectKeyFor, ActiveOwners, Owners, SetOf;
      var reopened := op.direct && DirectKeyFor(members[0], members[1]) in db.direct;
      var target := if reopened then db.direct[DirectKeyFor(members[0], members[1])] else op.id;
      SeatedOwners(db.seats, op.id, members, Some(op.owner), c);
      SeatedOwners(db.seats, target, members, None, c);
    }
  }

  lemma LeaveKeepsCap(db: Db, c: Id, o: Owner, d: Id, cap: nat)
    ensures ActiveOwners(Apply(db, Leave(c, o), cap).seats, d) <= ActiveOwners(db.seats, d)
  {
  }

  lemma StepKeepsCap(db: Db, op: Op, c: Id, cap: nat)
    requires Linked(db) && WithinCap(db, c, cap) && FitsIfAdded(db, op, c, cap)
    ensures WithinCap(Apply(db, op, cap), c, cap)
  {
    match op
    case Create(_, _, _, _, _) => CreateKeepsCap(db, op, c, cap);
    case Add(d, ids) =>
      hide Seated, ActiveOwners, Owners, SetOf;
      SeatedOwners(db.seats, d, ids, None, c);
    case Leave(d, o) =>
      LeaveKeepsCap(db, d, o, c, cap);
      CountOfSubset(ActiveOwners(Apply(db, op, cap).seats, c), ActiveOwners(db.seats, c));
    case Send(_, _, _, _) =>
    case ProjectCall(_, _) =>
  }

  /** An add that does not fit breaks the cap at once. */
  lemma OverfullAddBreaksCap(db: Db, op: Op, c: Id, cap: nat)
    requires !FitsIfAdded(db, op, c, cap)
    ensures !WithinCap(Apply(db, op, cap), c, cap)
  {
    hide Seated, ActiveOwners, Owners, SetOf;
    SeatedOwners(db.seats, c, op.ids, None, c);
  }

  lemma {:induction false} FittingAddsKeepCap(ops: seq<Op>, c: Id, cap: nat)
    requires forall n :: 0 <= n < |ops| ==> FitsIfAdded(Run(ops[..n], cap), ops[n], c, cap)
    ensures WithinCap(Run(ops, cap), c, cap)
  {
    hide Apply, WithinCap, FitsIfAdded;
    if ops == [] {
      assert WithinCap(EMPTY, c, cap) by { NobodyYet(c, cap); }
    } else {
      var last := |ops| - 1;
      forall n | 0 <= n < last ensures FitsIfAdded(Run(ops[..last][..n], cap), ops[..last][n], c, cap) {
        assert ops[..last][..n] == ops[..n];
      }
      FittingAddsKeepCap(ops[..last], c, cap);
      RunKeepsInv(ops[..last], cap);
      StepKeepsCap(Run(ops[..last], cap), ops[last], c, cap);
    }
  }

  lemma NobodyYet(c: Id, cap: nat)
    ensures WithinCap(EMPTY, c, cap)
  {
  }

  /**
   * Over every run of statements, a group's active members never exceed the cap if and only if every add that is
   * written would still pass the check of the room when it is written.
   */
  lemma CapHoldsIffEachWriteFits(ops: seq<Op>, c: Id, cap: nat)
    ensures (forall n :: 0 <= n <= |ops| ==> WithinCap(Run(ops[..n], cap), c, cap))
       <==> (forall n :: 0 <= n < |ops| ==> FitsIfAdded(Run(ops[..n], cap), ops[n], c, cap))
  {
    hide Apply, WithinCap, FitsIfAdded;
    if forall n :: 0 <= n < |ops| ==> FitsIfAdded(Run(ops[..n], cap), ops[n], c, cap) {
      forall n | 0 <= n <= |ops| ensures WithinCap(Run(ops[..n], cap), c, cap) {
        forall m | 0 <= m < n ensures FitsIfAdded(Run(ops[..n][..m], cap), ops[..n][m], c, cap) {
          assert ops[..n][..m] == ops[..m];
        }
        FittingAddsKeepCap(ops[..n], c, cap);
      }
    } else {
      var n :| 0 <= n < |ops| && !FitsIfAdded(Run(ops[..n], cap), ops[n], c, cap);
      OverfullAddBreaksCap(Run(ops[..n], cap), ops[n], c, cap);
      assert ops[..n + 1] == ops[..n] + [ops[n]];
      RunSnoc(ops[..n], ops[n], cap);
    }
  }

  // Checked adds.

  predicate SeatsInGroup(op: Op, c: Id) {
    op.Add? && op.conversation == c
  }

  /** Between a check and its write nobody else was seated in the group. */
  ghost predicate IsUndisturbed(ops: seq<Op>, m: nat, n: nat, c: Id)
    requires m <= n <= |ops|
  {
    forall k :: m <= k < n ==> !SeatsInGroup(ops[k], c)
  }

  lemma WithoutSeatingNobodyJoins(db: Db, op: Op, c: Id, cap: nat)
    requires Linked(db) && IsGroup(db, c) && !SeatsInGroup(op, c)
    ensures IsGroup(Apply(db, op, cap), c) && ActiveOwners(Apply(db, op, cap).seats, c) <= ActiveOwners(db.seats, c)
  {
    match op
    case Create(id, owner, direct, ids, now) =>
      if id !in db.conversations && MayCreate(owner, direct, ids, cap) {
        var members := Members([owner] + ids);
        hide Members, Seated, DirectKeyFor, ActiveOwners, Owners, SetOf;
        var reopened := direct && DirectKeyFor(members[0], members[1]) in db.direct;
        var target := if reopened then db.direct[DirectKeyFor(members[0], members[1])] else id;
        SeatedOwners(db.seats, id, members, Some(owner), c);
        SeatedOwners(db.seats, target, members, None, c);
      }
    case Add(d, ids) =>
      hide Seated, ActiveOwners, Owners, SetOf;
      SeatedOwners(db.seats, d, ids, None, c);
    case Leave(d, o) => LeaveKeepsCap(db, d, o, c, cap);
    case Send(_, _, _, _) =>
    case ProjectCall(_, _) =>
  }

  lemma {:induction false} UndisturbedGroupOnlyShrinks(ops: seq<Op>, m: nat, n: nat, c: Id, cap: nat)
    requires m <= n <= |ops| && IsUndisturbed(ops, m, n, c) && IsGroup(Run(ops[..m], cap), c)
    ensures IsGroup(Run(ops[..n], cap), c)
    ensures ActiveOwners(Run(ops[..n], cap).seats, c) <= ActiveOwners(Run(ops[..m], cap).seats, c)
  {
    hide Apply, ActiveOwners, IsGroup, Run;
    if m < n {
      UndisturbedGroupOnlyShrinks(ops, m, n - 1, c, cap);
      assert ops[..n] == ops[..n - 1] + [ops[n - 1]];
      RunSnoc(ops[..n - 1], ops[n - 1], cap);
      RunKeepsInv(ops[..n - 1], cap);
      WithoutSeatingNobodyJoins(Run(ops[..n - 1], cap), ops[n - 1], c, cap);
    }
  }

  /** A check that held still holds when nobody else was seated in between; people who left make only more room. */
  lemma UndisturbedAddFits(ops: seq<Op>, m: nat, n: nat, c: Id, asker: Owner, ids: seq<Owner>, cap: nat)
    requires m <= n <= |ops| && IsUndisturbed(ops, m, n, c) && MayAdd(Run(ops[..m], cap), c, asker, ids, cap)
    ensures Fits(Run(ops[..n], cap), c, ids, cap)
  {
    UndisturbedGroupOnlyShrinks(ops, m, n, c, cap);
    hide Run, ActiveOwners;
    CountOfSubset(ActiveOwners(Run(ops[..n], cap).seats, c) + SetOf(ids), ActiveOwners(Run(ops[..m], cap).seats, c) + SetOf(ids));
  }

  ghost predicate WasChecked(ops: seq<Op>, n: nat, c: Id, cap: nat)
    requires n < |ops| && SeatsInGroup(ops[n], c)
  {
    exists m, asker :: 0 <= m <= n && IsUndisturbed(ops, m, n, c) && MayAdd(Run(ops[..m], cap), c, asker, ops[n].ids, cap)
  }

  /**
   * When every add of a group was checked with no other seating of that group between its check and its write, the
   * group's active members never exceed the cap.
   */
  lemma GroupNeverExceedsCap(ops: seq<Op>, c: Id, cap: nat)
    requires forall n :: 0 <= n < |ops| && SeatsInGroup(ops[n], c) ==> WasChecked(ops, n, c, cap)
    ensures forall n :: 0 <= n <= |ops| ==> WithinCap(Run(ops[..n], cap), c, cap)
  {
    hide Run, WithinCap, Fits, MayAdd;
    forall n | 0 <= n < |ops| ensures FitsIfAdded(Run(ops[..n], cap), ops[n], c, cap) {
      if SeatsInGroup(ops[n], c) {
        assert WasChecked(ops, n, c, cap);
        var m, asker :| 0 <= m <= n && IsUndisturbed(ops, m, n, c) && MayAdd(Run(ops[..m], cap), c, asker, ops[n].ids, cap);
        UndisturbedAddFits(ops, m, n, c, asker, ops[n].ids, cap);
      }
    }
    CapHoldsIffEachWriteFits(ops, c, cap);
  }

  lemma AtMostTwo(a: Owner, b: Owner)
    ensures |{a, b}| <= 2
  {
  }

  lemma RaceForTheLastPlace(db: Db, c: Id, a: Owner, b: Owner, d: Owner)
    requires IsAdmin(db, c, a) && IsGroup(db, c) && ActiveOwners(db.seats, c) == {a}
    requires b != "" && d != ""
    ensures MayAdd(db, c, a, [b], 2) && MayAdd(db, c, a, [d], 2)
    ensures ActiveOwners(Apply(Apply(db, Add(c, [b]), 2), Add(c, [d]), 2).seats, c) == {a, b, d}
  {
    hide Seated, ActiveOwners;
    assert SetOf([b]) == {b} && SetOf([d]) == {d};
    hide SetOf;
    AtMostTwo(a, b);
    AtMostTwo(a, d);
    assert {a} + {b} == {a, b} && {a} + {d} == {a, d};
    OneMoreMember(db, c, b);
    OneMoreMember(Apply(db, Add(c, [b]), 2), c, d);
    hide Apply;
  }

  lemma OneMoreMember(db: Db, c: Id, o: Owner)
    requires IsGroup(db, c) && o != ""
    ensures var after := Apply(db, Add(c, [o]), 2);
      IsGroup(after, c) && ActiveOwners(after.seats, c) == ActiveOwners(db.seats, c) + {o}
  {
    hide Seated, ActiveOwners;
    SeatedOwners(db.seats, c, [o], None, c);
    assert SetOf([o]) == {o};
  }

  /**
   * A run in which two adds are checked at the same moment: both find the last place under a cap of two, and both
   * writes leave three members.
   */
  lemma RacingAddsExceedTheCap()
    ensures var before := [Create(1, "a", false, ["x"], 0), Leave(1, "x")];
      && MayAdd(Run(before, 2), 1, "a", ["b"], 2) && MayAdd(Run(before, 2), 1, "a", ["d"], 2)
      && ActiveOwners(Run(before + [Add(1, ["b"])] + [Add(1, ["d"])], 2).seats, 1) == {"a", "b", "d"}
  {
    var create, leave := Create(1, "a", false, ["x"], 0), Leave(1, "x");
    assert [create, leave] == ([] + [create]) + [leave];
    RunSnoc([], create, 2);
    RunSnoc([] + [create], leave, 2);
    RunSnoc([create, leave], Add(1, ["b"]), 2);
    RunSnoc([create, leave] + [Add(1, ["b"])], Add(1, ["d"]), 2);
    assert Run([], 2) == EMPTY;
    hide Run;
    GroupOfOne("a", "x");
    RaceForTheLastPlace(Run([create, leave], 2), 1, "a", "b", "d");
    hide Apply, MayAdd, ActiveOwners;
  }

  lemma LeaveRemoves(db: Db, c: Id, o: Owner, cap: nat)
    requires IsActive(db, c, o)
    ensures ActiveOwners(Apply(db, Leave(c, o), cap).seats, c) == ActiveOwners(db.seats, c) - {o}
  {
    var after := Apply(db, Leave(c, o), cap).seats;
    forall x ensures x in ActiveOwners(after, c) <==> x in ActiveOwners(db.seats, c) && x != o {
      if x in ActiveOwners(db.seats, c) && x != o { assert Seat(c, x) in after && after[Seat(c, x)].active; }
    }
  }

  lemma GroupOfOne(a: Owner, x: Owner)
    requires a != x && a != "" && x != ""
    ensures var db := Apply(Apply(EMPTY, Create(1, a, false, [x], 0), 2), Leave(1, x), 2);
      IsAdmin(db, 1, a) && IsGroup(db, 1) && ActiveOwners(db.seats, 1) == {a}
  {
    MembersOfTwo(a, x);
    hide Members;
    var one := Apply(EMPTY, Create(1, a, false, [x], 0), 2);
    assert one == Db(map[1 := Conversation(None, a, None, 0)], map[], Seated(map[], 1, [a, x], Some(a)), map[]);
    SeatedRoles(map[], 1, [a, x], Some(a), Seat(1, a));
    SeatedOwners(map[], 1, [a, x], Some(a), 1);
    assert ActiveOwners(map[], 1) == {} && SetOf([a, x]) == {a, x};
    assert one.seats[Seat(1, x)].active && one.seats[Seat(1, a)].active;
    hide Seated, SetOf, ActiveOwners;
    LeaveRemoves(one, 1, x, 2);
  }
}
