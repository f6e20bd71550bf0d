/** A worked run of the engine on a concrete group: an owner (user 1) and two
    more members (users 2 and 3), contributing 100 per cycle.  Each step is
    one operation from one named store to the next. */
module Scenarios {
  import opened Entities
  import opened Repository
  import GroupDto
  import opened EqubEngine

  const Dto := GroupDto.CreateGroupDto("Savings", None, 100.0, Monthly)
  const Pend := Group("Savings", None, 100.0, Monthly, Pending, 1)
  const Act := Pend.(status := Active)
  const M1 := Membership(0, 1, 1)
  const M2 := Membership(0, 2, 2)
  const M3 := Membership(0, 3, 3)
  const Cycle1 := Cycle(0, 1, CycleActive, Some(1))
  const Cycle2 := Cycle(0, 2, CycleActive, Some(2))
  const Paid1 := Transaction(0, 0, 100.0, TxSuccess)
  const Paid2 := Transaction(1, 0, 100.0, TxSuccess)
  const Paid3 := Transaction(2, 0, 100.0, TxSuccess)

  const Created := Store([Pend], [M1], [], [])
  const Joined2 := Store([Pend], [M1, M2], [], [])
  const Joined3 := Store([Pend], [M1, M2, M3], [], [])
  const Started := Store([Act], [M1, M2, M3], [Cycle1], [])
  const TwoPaid := Store([Act], [M1, M2, M3], [Cycle1], [Paid1, Paid2])
  const AllPaid := Store([Act], [M1, M2, M3], [Cycle1], [Paid1, Paid2, Paid3])

  lemma CreateStep()
    ensures CreateGroup(EmptyStore, Dto, 1) == (0, Created)
  {
    assert [] + [Pend] == [Pend] && [] + [M1] == [M1];
  }

  /** Users 2 and 3 join and receive payout orders 2 and 3. */
  lemma JoinSteps()
    ensures JoinGroup(Created, 0, 2) == (Ok(M2), Joined2)
    ensures JoinGroup(Joined2, 0, 3) == (Ok(M3), Joined3)
  {
    assert MemberGroups(Created.memberships) == [0];
    assert MemberGroups(Joined2.memberships) == [0, 0];
    assert [M1] + [M2] == [M1, M2] && [M1, M2] + [M3] == [M1, M2, M3];
    ThreeLookups();
  }

  /** The lookups of the three-member table, one row at a time from the newest. */
  lemma ThreeLookups()
    ensures FindMembership([M1], 0, 2) == None && FindMembership([M1, M2], 0, 3) == None
    ensures FindMembership([M1, M2, M3], 0, 1) == Some(0)
    ensures FindMembership([M1, M2, M3], 0, 2) == Some(1)
    ensures FindMembership([M1, M2, M3], 0, 3) == Some(2)
    ensures FindByPayoutOrder([M1, M2, M3], 0, 1) == Some(0)
    ensures FindByPayoutOrder([M1, M2, M3], 0, 2) == Some(1)
  {
    assert [M1, M2, M3][..2] == [M1, M2];
    assert [M1, M2][..1] == [M1];
    assert [M1][..0] == [];
  }

  /** Only the owner may start the group; starting it opens cycle 1, paid to the owner, and closes it to new members. */
  lemma StartSteps()
    ensures StartGroup(Joined3, 0, 2) == (Err(Forbidden(NotOwner)), Joined3)
    ensures StartGroup(Joined3, 0, 1) == (Ok(Act), Started)
    ensures JoinGroup(Started, 0, 4) == (Err(Conflict(NotAcceptingMembers)), Started)
  {
    assert MemberGroups(Joined3.memberships) == [0, 0, 0];
    ThreeLookups();
    assert [] + [Cycle1] == [Cycle1] && [Pend][0 := Act] == [Act];
  }

  /** Users 1 and 2 pay; user 1 may not pay twice. */
  lemma FirstPayments()
    ensures MakePayment(Started, 0, 1, true) == (Ok(Paid1), Started.(transactions := [Paid1]))
    ensures MakePayment(Started.(transactions := [Paid1]), 0, 2, true) == (Ok(Paid2), TwoPaid)
    ensures MakePayment(TwoPaid, 0, 1, true) == (Err(Conflict(AlreadyPaid)), TwoPaid)
  {
    ThreeLookups();
    assert FindActiveCycle(Started.cycles, 0) == Some(0);
    assert [] + [Paid1] == [Paid1] && [Paid1] + [Paid2] == [Paid1, Paid2];
    assert [Paid1][..0] == [];
    assert FindSuccess([Paid1], 1, 0) == None;
    assert [Paid1, Paid2][..1] == [Paid1];
    assert FindSuccess([Paid1, Paid2], 0, 0) == Some(0);
  }

  /** With user 3 still owing, the rollover is refused and reports one unpaid member. */
  lemma RolloverRefused()
    ensures ProcessNextCycle(TwoPaid, 0, 1) == (Err(Conflict(Unpaid(1))), TwoPaid)
  {
    assert MemberGroups(TwoPaid.memberships) == [0, 0, 0];
    assert [0, 0, 0][..2] == [0, 0] && [0, 0][..1] == [0];
    assert MemberCount(TwoPaid.memberships, 0) == 3;
    assert FindActiveCycle(TwoPaid.cycles, 0) == Some(0);
    TwoPaidCount();
  }

  lemma TwoPaidCount()
    ensures SuccessCount([Paid1, Paid2], 0) == 2
    ensures FindSuccess([Paid1, Paid2], 2, 0) == None
  {
    assert [Paid1, Paid2][..1] == [Paid1];
    assert [Paid1][..0] == [];
  }

  /** Once user 3 pays, cycle 1 is completed and cycle 2 opens, paid to user 2. */
  lemma RolloverDone()
    ensures MakePayment(TwoPaid, 0, 3, true) == (Ok(Paid3), AllPaid)
    ensures ProcessNextCycle(AllPaid, 0, 1) ==
            (Ok(Cycle2), AllPaid.(cycles := [Cycle1.(status := CycleCompleted), Cycle2]))
  {
    ThreeLookups();
    TwoPaidCount();
    assert FindActiveCycle(TwoPaid.cycles, 0) == Some(0);
    assert [Paid1, Paid2] + [Paid3] == [Paid1, Paid2, Paid3];
    assert MemberGroups(AllPaid.memberships) == [0, 0, 0];
    assert [Paid1, Paid2, Paid3][..2] == [Paid1, Paid2];
    assert SuccessCount(AllPaid.transactions, 0) == 3;
    assert [Cycle1][0 := Cycle1.(status := CycleCompleted)] + [Cycle2] == [Cycle1.(status := CycleCompleted), Cycle2];
  }
}
