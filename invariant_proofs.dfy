/** Every operation of the engine keeps `EngineInvariant`, and the empty
    store satisfies it: so the invariant holds of every store the service
    can reach. */
module EngineInvariantProofs {
  import opened Entities
  import opened Repository
  import Numbering
  import RoundRobin
  import GroupDto
  import opened EqubEngine

  lemma EmptyStoreInvariant()
    ensures EngineInvariant(EmptyStore)
  {
    assert MemberGroups([]) == [] && PayoutOrders([]) == [];
    assert CycleGroups([]) == [] && CycleNumbers([]) == [];
  }

  // ---------------------------------------------------------------------------
  // Lookups under the invariant
  // ---------------------------------------------------------------------------

  /** With one membership per user and group, the membership lookup finds exactly that row. */
  lemma FindMembershipExact(ms: seq<Membership>, i: nat)
    requires OneMembershipPerUser(ms) && i < |ms|
    ensures FindMembership(ms, ms[i].group, ms[i].user) == Some(i)
  {
    var r := FindMembership(ms, ms[i].group, ms[i].user);
    assert r.Some?;
    var j := r.value;
    assert ms[j].group == ms[i].group && ms[j].user == ms[i].user;
    assert j == i;
  }

  /** Payout orders are distinct within a group, so the lookup by order finds exactly that row. */
  lemma FindByPayoutOrderExact(ms: seq<Membership>, i: nat)
    requires PayoutOrdersNumbered(ms) && i < |ms|
    ensures FindByPayoutOrder(ms, ms[i].group, ms[i].payoutOrder) == Some(i)
  {
    var r := FindByPayoutOrder(ms, ms[i].group, ms[i].payoutOrder);
    if r.Some? && r.value != i {
      var j := r.value;
      if j < i {
        Numbering.NumberedIncreasing(MemberGroups(ms), PayoutOrders(ms), j, i);
      } else {
        Numbering.NumberedIncreasing(MemberGroups(ms), PayoutOrders(ms), i, j);
      }
    }
  }

  /** Every payout order from 1 to the member count is held by some member of the group. */
  lemma PayoutOrderHeld(ms: seq<Membership>, g: GroupId, k: int)
    requires PayoutOrdersNumbered(ms) && 1 <= k <= MemberCount(ms, g)
    ensures FindByPayoutOrder(ms, g, k).Some?
  {
    var i := Numbering.NumberedCovers(MemberGroups(ms), PayoutOrders(ms), g, k);
    assert ms[i].group == g && ms[i].payoutOrder == k;
  }

  /** A group whose count is zero has no row in the table. */
  lemma NoCycleOfGroup(cs: seq<Cycle>, g: GroupId, i: nat)
    requires CycleCount(cs, g) == 0 && i < |cs|
    ensures cs[i].group != g
  {
    assert CycleGroups(cs)[i] == cs[i].group;
  }

  /** Two active cycles of one group cannot coexist. */
  lemma ActiveCyclesUnique(cs: seq<Cycle>, i: nat, j: nat)
    requires CyclesNumbered(cs) && ActiveCycleIsLatest(cs)
    requires i < |cs| && j < |cs| && cs[i].group == cs[j].group
    requires cs[i].status == CycleActive && cs[j].status == CycleActive
    ensures i == j
  {
    if i < j {
      Numbering.NumberedIncreasing(CycleGroups(cs), CycleNumbers(cs), i, j);
    } else if j < i {
      Numbering.NumberedIncreasing(CycleGroups(cs), CycleNumbers(cs), j, i);
    }
  }
  /** An active cycle is the only active cycle of its group. */
  lemma OnlyActiveCycle(cs: seq<Cycle>, a: nat)
    requires CyclesNumbered(cs) && ActiveCycleIsLatest(cs) && a < |cs| && cs[a].status == CycleActive
    ensures forall i :: 0 <= i < |cs| && cs[i].group == cs[a].group && cs[i].status == CycleActive ==> i == a
  {
    forall i | 0 <= i < |cs| && cs[i].group == cs[a].group && cs[i].status == CycleActive
      ensures i == a
    {
      ActiveCyclesUnique(cs, i, a);
    }
  }


  // ---------------------------------------------------------------------------
  // createGroup
  // ---------------------------------------------------------------------------

  lemma CreateGroupKeepsMembers(s: Store, s': Store, grp: Group)
    requires WellFormed(s) && PayoutOrdersNumbered(s.memberships) && OneMembershipPerUser(s.memberships) && OwnerHoldsFirstOrder(s.groups, s.memberships)
    requires s' == s.(groups := s.groups + [grp],
                      memberships := s.memberships + [Membership(|s.groups|, grp.owner, 1)])
    ensures WellFormed(s') && PayoutOrdersNumbered(s'.memberships) && OneMembershipPerUser(s'.memberships) && OwnerHoldsFirstOrder(s'.groups, s'.memberships)
  {
    var g, ms, m := |s.groups|, s.memberships, Membership(|s.groups|, grp.owner, 1);
    assert g !in MemberGroups(ms);
    MemberGroupsAppend(ms, m);
    Numbering.NumberedAppend(MemberGroups(ms), PayoutOrders(ms), g);
    forall h | 0 <= h < |s'.groups|
      ensures MemberCount(s'.memberships, h) >= 1
    {
      MemberCountAppend(ms, m, h);
    }
  }

  lemma CreateGroupKeepsCycles(s: Store, s': Store, grp: Group)
    requires WellFormed(s) && StatusMatchesCycles(s.groups, s.memberships, s.cycles) && RecipientsRotate(s.memberships, s.cycles)
    requires s' == s.(groups := s.groups + [grp],
                      memberships := s.memberships + [Membership(|s.groups|, grp.owner, 1)])
    requires grp.status == Pending
    ensures StatusMatchesCycles(s'.groups, s'.memberships, s'.cycles) && RecipientsRotate(s'.memberships, s'.cycles)
  {
    var g, ms, m := |s.groups|, s.memberships, Membership(|s.groups|, grp.owner, 1);
    forall h | 0 <= h < |s'.groups|
      ensures if s'.groups[h].status == Pending then CycleCount(s'.cycles, h) == 0
              else FindActiveCycle(s'.cycles, h).Some? && MemberCount(s'.memberships, h) >= 2
    {
      MemberCountAppend(ms, m, h);
      if h == g {
        assert g !in CycleGroups(s.cycles);
      }
    }
    forall i | 0 <= i < |s'.cycles|
      ensures RecipientHoldsOrder(s'.memberships, s'.cycles, i)
    {
      assert RecipientHoldsOrder(s.memberships, s.cycles, i);
      var c := s.cycles[i];
      MemberCountAppend(ms, m, c.group);
      FindMembershipAppend(ms, m, c.group, c.payoutRecipient.value);
    }
  }

  lemma CreateGroupPreservesInvariant(s: Store, dto: GroupDto.CreateGroupDto, owner: UserId)
    requires EngineInvariant(s)
    ensures EngineInvariant(CreateGroup(s, dto, owner).1)
  {
    var s' := CreateGroup(s, dto, owner).1;
    var grp := Group(dto.name, dto.description, dto.contributionAmount, dto.frequency, Pending, owner);
    CreateGroupKeepsMembers(s, s', grp);
    CreateGroupKeepsCycles(s, s', grp);
    assert TransactionsSettled(s');
  }

  // ---------------------------------------------------------------------------
  // joinGroup
  // ---------------------------------------------------------------------------

  /** Appending a membership with the next payout order of its group keeps the orders numbered. */
  lemma AppendKeepsNumbered(ms: seq<Membership>, m: Membership)
    requires PayoutOrdersNumbered(ms) && m.payoutOrder == MemberCount(ms, m.group) + 1
    ensures PayoutOrdersNumbered(ms + [m])
  {
    MemberGroupsAppend(ms, m);
    Numbering.NumberedAppend(MemberGroups(ms), PayoutOrders(ms), m.group);
  }

  lemma JoinGroupKeepsOneMembership(ms: seq<Membership>, m: Membership)
    requires OneMembershipPerUser(ms) && FindMembership(ms, m.group, m.user).None?
    ensures OneMembershipPerUser(ms + [m])
  {
  }

  lemma JoinGroupKeepsOwner(groups: seq<Group>, ms: seq<Membership>, m: Membership)
    requires OwnerHoldsFirstOrder(groups, ms) && m.group < |groups| && m.payoutOrder == MemberCount(ms, m.group) + 1
    ensures OwnerHoldsFirstOrder(groups, ms + [m])
  {
    forall h | 0 <= h < |groups|
      ensures MemberCount(ms + [m], h) >= 1
    {
      MemberCountAppend(ms, m, h);
    }
  }

  lemma JoinGroupKeepsMembers(s: Store, s': Store, gid: GroupId, user: UserId)
    requires WellFormed(s) && PayoutOrdersNumbered(s.memberships) && OneMembershipPerUser(s.memberships) && OwnerHoldsFirstOrder(s.groups, s.memberships)
    requires gid < |s.groups| && FindMembership(s.memberships, gid, user).None?
    requires s' == s.(memberships := s.memberships + [Membership(gid, user, MemberCount(s.memberships, gid) + 1)])
    ensures WellFormed(s') && PayoutOrdersNumbered(s'.memberships) && OneMembershipPerUser(s'.memberships) && OwnerHoldsFirstOrder(s'.groups, s'.memberships)
  {
    var ms, m := s.memberships, Membership(gid, user, MemberCount(s.memberships, gid) + 1);
    AppendKeepsNumbered(ms, m);
    JoinGroupKeepsOneMembership(ms, m);
    JoinGroupKeepsOwner(s.groups, ms, m);
  }

  lemma JoinGroupKeepsCycles(s: Store, s': Store, gid: GroupId, user: UserId)
    requires WellFormed(s) && StatusMatchesCycles(s.groups, s.memberships, s.cycles) && RecipientsRotate(s.memberships, s.cycles)
    requires gid < |s.groups| && s.groups[gid].status == Pending
    requires s' == s.(memberships := s.memberships + [Membership(gid, user, MemberCount(s.memberships, gid) + 1)])
    ensures StatusMatchesCycles(s'.groups, s'.memberships, s'.cycles) && RecipientsRotate(s'.memberships, s'.cycles)
  {
    var ms, m := s.memberships, Membership(gid, user, MemberCount(s.memberships, gid) + 1);
    forall h | 0 <= h < |s'.groups|
      ensures MemberCount(s'.memberships, h) >= MemberCount(ms, h)
    {
      MemberCountAppend(ms, m, h);
    }
    forall i | 0 <= i < |s'.cycles|
      ensures RecipientHoldsOrder(s'.memberships, s'.cycles, i)
    {
      assert RecipientHoldsOrder(s.memberships, s.cycles, i);
      var c := s.cycles[i];
      NoCycleOfGroup(s.cycles, gid, i);
      MemberCountAppend(ms, m, c.group);
      FindMembershipAppend(ms, m, c.group, c.payoutRecipient.value);
    }
  }

  lemma JoinGroupPreservesInvariant(s: Store, gid: GroupId, user: UserId)
    requires EngineInvariant(s)
    ensures EngineInvariant(JoinGroup(s, gid, user).1)
  {
    var (r, s') := JoinGroup(s, gid, user);
    if r.Ok? {
      JoinGroupKeepsMembers(s, s', gid, user);
      JoinGroupKeepsCycles(s, s', gid, user);
      assert TransactionsSettled(s');
    }
  }

  // ---------------------------------------------------------------------------
  // makePayment
  // ---------------------------------------------------------------------------

  lemma MakePaymentKeepsTransactions(s: Store, gid: GroupId, user: UserId, gatewaySuccess: bool)
    requires WellFormed(s) && TransactionsSettled(s) && OneSuccessPerObligation(s.transactions)
    ensures var s' := MakePayment(s, gid, user, gatewaySuccess).1;
            WellFormed(s') && TransactionsSettled(s') && OneSuccessPerObligation(s'.transactions)
  {
    var (r, s') := MakePayment(s, gid, user, gatewaySuccess);
    if r.Ok? {
      var m := FindMembership(s.memberships, gid, user).value;
      var c := FindActiveCycle(s.cycles, gid).value;
      assert FindSuccess(s.transactions, m, c).None?;
      assert r.value == Transaction(m, c, s.groups[gid].contributionAmount, Settle(gatewaySuccess));
    }
  }

  lemma MakePaymentPreservesInvariant(s: Store, gid: GroupId, user: UserId, gatewaySuccess: bool)
    requires EngineInvariant(s)
    ensures EngineInvariant(MakePayment(s, gid, user, gatewaySuccess).1)
  {
    MakePaymentKeepsTransactions(s, gid, user, gatewaySuccess);
  }

  /** Transactions stay settled when only group statuses change and cycles are completed or appended. */
  lemma SettledKept(s: Store, s': Store)
    requires WellFormed(s) && WellFormed(s') && TransactionsSettled(s)
    requires s'.memberships == s.memberships && s'.transactions == s.transactions
    requires |s'.groups| == |s.groups|
    requires forall g :: 0 <= g < |s.groups| ==> s'.groups[g].contributionAmount == s.groups[g].contributionAmount
    requires |s.cycles| <= |s'.cycles| && forall i :: 0 <= i < |s.cycles| ==> s'.cycles[i].group == s.cycles[i].group
    ensures TransactionsSettled(s')
  {
  }

  /** Owners stay put when only group statuses change. */
  lemma OwnerKept(groups: seq<Group>, groups': seq<Group>, ms: seq<Membership>)
    requires OwnerHoldsFirstOrder(groups, ms) && |groups'| == |groups|
    requires forall g :: 0 <= g < |groups| ==> groups'[g].owner == groups[g].owner
    ensures OwnerHoldsFirstOrder(groups', ms)
  {
  }

  // ---------------------------------------------------------------------------
  // startGroup
  // ---------------------------------------------------------------------------

  /** Opening a group's next cycle, when the group has no active one, keeps the cycles numbered and the active ones latest. */
  lemma AppendKeepsCycleOrder(cs: seq<Cycle>, next: Cycle)
    requires CyclesNumbered(cs) && ActiveCycleIsLatest(cs)
    requires FindActiveCycle(cs, next.group).None? && next.cycleNumber == CycleCount(cs, next.group) + 1
    ensures CyclesNumbered(cs + [next]) && ActiveCycleIsLatest(cs + [next])
  {
    CycleColumnsAppend(cs, next);
    Numbering.NumberedAppend(CycleGroups(cs), CycleNumbers(cs), next.group);
    forall i | 0 <= i < |cs + [next]| && (cs + [next])[i].status == CycleActive
      ensures (cs + [next])[i].cycleNumber == CycleCount(cs + [next], (cs + [next])[i].group)
    {
      CycleCountAppend(cs, next, (cs + [next])[i].group);
    }
  }

  lemma StartGroupKeepsStatus(s: Store, s': Store, gid: GroupId, first: Cycle)
    requires StatusMatchesCycles(s.groups, s.memberships, s.cycles)
    requires gid < |s.groups| && MemberCount(s.memberships, gid) >= 2
    requires first.group == gid && first.status == CycleActive
    requires s' == s.(cycles := s.cycles + [first], groups := s.groups[gid := s.groups[gid].(status := Active)])
    ensures StatusMatchesCycles(s'.groups, s'.memberships, s'.cycles)
  {
    var cs := s.cycles;
    forall h | 0 <= h < |s'.groups|
      ensures if s'.groups[h].status == Pending then CycleCount(s'.cycles, h) == 0
              else FindActiveCycle(s'.cycles, h).Some? && MemberCount(s'.memberships, h) >= 2
    {
      CycleCountAppend(cs, first, h);
      if h == gid {
        assert s'.cycles[|cs|] == first;
      } else if s.groups[h].status != Pending {
        var k := FindActiveCycle(cs, h).value;
        assert s'.cycles[k] == cs[k];
      }
    }
  }

  lemma StartGroupKeepsCycles(s: Store, s': Store, gid: GroupId, first: Cycle)
    requires WellFormed(s) && CyclesNumbered(s.cycles) && ActiveCycleIsLatest(s.cycles) && StatusMatchesCycles(s.groups, s.memberships, s.cycles)
    requires gid < |s.groups| && s.groups[gid].status == Pending && MemberCount(s.memberships, gid) >= 2
    requires first.group == gid && first.cycleNumber == 1 && first.status == CycleActive
    requires s' == s.(cycles := s.cycles + [first], groups := s.groups[gid := s.groups[gid].(status := Active)])
    ensures WellFormed(s') && CyclesNumbered(s'.cycles) && ActiveCycleIsLatest(s'.cycles) && StatusMatchesCycles(s'.groups, s'.memberships, s'.cycles)
  {
    var cs := s.cycles;
    assert CycleCount(cs, gid) == 0;
    assert FindActiveCycle(cs, gid).None? by {
      if FindActiveCycle(cs, gid).Some? {
        NoCycleOfGroup(cs, gid, FindActiveCycle(cs, gid).value);
      }
    }
    AppendKeepsCycleOrder(cs, first);
    StartGroupKeepsStatus(s, s', gid, first);
  }

  lemma StartGroupKeepsRecipients(s: Store, s': Store, gid: GroupId, j: MembershipId)
    requires OneMembershipPerUser(s.memberships) && RecipientsRotate(s.memberships, s.cycles)
    requires j < |s.memberships| && s.memberships[j].group == gid && s.memberships[j].payoutOrder == 1
    requires MemberCount(s.memberships, gid) >= 1
    requires s'.memberships == s.memberships
    requires s'.cycles == s.cycles + [Cycle(gid, 1, CycleActive, Some(s.memberships[j].user))]
    ensures RecipientsRotate(s'.memberships, s'.cycles)
  {
    FindMembershipExact(s.memberships, j);
    forall i | 0 <= i < |s'.cycles|
      ensures RecipientHoldsOrder(s'.memberships, s'.cycles, i)
    {
      if i < |s.cycles| {
        assert RecipientHoldsOrder(s.memberships, s.cycles, i);
      }
    }
  }

  lemma StartedPreservesInvariant(s: Store, s': Store, gid: GroupId, j: MembershipId)
    requires EngineInvariant(s)
    requires gid < |s.groups| && s.groups[gid].status == Pending && MemberCount(s.memberships, gid) >= 2
    requires j < |s.memberships| && s.memberships[j].group == gid && s.memberships[j].payoutOrder == 1
    requires s' == s.(cycles := s.cycles + [Cycle(gid, 1, CycleActive, Some(s.memberships[j].user))],
                      groups := s.groups[gid := s.groups[gid].(status := Active)])
    ensures EngineInvariant(s')
  {
    StartGroupKeepsCycles(s, s', gid, Cycle(gid, 1, CycleActive, Some(s.memberships[j].user)));
    StartGroupKeepsRecipients(s, s', gid, j);
    OwnerKept(s.groups, s'.groups, s.memberships);
    SettledKept(s, s');
  }

  lemma StartGroupPreservesInvariant(s: Store, gid: GroupId, user: UserId)
    requires EngineInvariant(s)
    ensures EngineInvariant(StartGroup(s, gid, user).1)
  {
    var (r, s') := StartGroup(s, gid, user);
    if r.Ok? {
      var j := FindByPayoutOrder(s.memberships, gid, 1).value;
      StartedPreservesInvariant(s, s', gid, j);
    } else {
      assert s' == s;
    }
  }

  // ---------------------------------------------------------------------------
  // processNextCycle
  // ---------------------------------------------------------------------------

  /** Under the invariant, a rollover that gets past the unpaid check always finds both recipients,
      and the next recipient holds the round-robin order of the next cycle number. */
  lemma RolloverLookups(s: Store, gid: GroupId, c: CycleId)
    requires EngineInvariant(s)
    requires gid < |s.groups| && FindActiveCycle(s.cycles, gid) == Some(c)
    ensures s.cycles[c].payoutRecipient.Some?
    ensures var m := FindMembership(s.memberships, gid, s.cycles[c].payoutRecipient.value);
            var total := MemberCount(s.memberships, gid);
            m.Some? && total >= 2 && s.cycles[c].cycleNumber >= 1 &&
            s.memberships[m.value].payoutOrder == RoundRobin.RecipientOrder(s.cycles[c].cycleNumber, total) &&
            var next := RoundRobin.NextPayoutOrder(s.memberships[m.value].payoutOrder, total);
            next == RoundRobin.RecipientOrder(s.cycles[c].cycleNumber + 1, total) &&
            FindByPayoutOrder(s.memberships, gid, next).Some?
  {
    assert RecipientHoldsOrder(s.memberships, s.cycles, c);
    assert s.groups[gid].status != Pending by {
      if s.groups[gid].status == Pending {
        NoCycleOfGroup(s.cycles, gid, c);
      }
    }
    var total := MemberCount(s.memberships, gid);
    RoundRobin.RecipientOrderNext(s.cycles[c].cycleNumber, total);
    PayoutOrderHeld(s.memberships, gid, RoundRobin.RecipientOrder(s.cycles[c].cycleNumber + 1, total));
  }

  /** Completing a group's active cycle leaves the group with no active cycle and the counts as they were. */
  lemma CompleteKeepsCycleOrder(cs: seq<Cycle>, c: CycleId)
    requires CyclesNumbered(cs) && ActiveCycleIsLatest(cs) && c < |cs| && cs[c].status == CycleActive
    ensures var cs1 := cs[c := cs[c].(status := CycleCompleted)];
            CyclesNumbered(cs1) && ActiveCycleIsLatest(cs1) && FindActiveCycle(cs1, cs[c].group).None? &&
            forall h :: CycleCount(cs1, h) == CycleCount(cs, h)
  {
    var cs1 := cs[c := cs[c].(status := CycleCompleted)];
    CycleColumnsUpdate(cs, c, cs[c].(status := CycleCompleted));
    if FindActiveCycle(cs1, cs[c].group).Some? {
      var i := FindActiveCycle(cs1, cs[c].group).value;
      assert i != c && cs1[i] == cs[i];
      ActiveCyclesUnique(cs, i, c);
      assert false;
    }
  }

  lemma RolloverKeepsStatus(s: Store, s': Store, gid: GroupId, c: CycleId, next: Cycle)
    requires StatusMatchesCycles(s.groups, s.memberships, s.cycles)
    requires gid < |s.groups| && FindActiveCycle(s.cycles, gid) == Some(c)
    requires next.group == gid && next.status == CycleActive
    requires s' == s.(cycles := s.cycles[c := s.cycles[c].(status := CycleCompleted)] + [next])
    requires forall h :: CycleCount(s'.cycles, h) == CycleCount(s.cycles, h) + (if h == gid then 1 else 0)
    ensures StatusMatchesCycles(s'.groups, s'.memberships, s'.cycles)
  {
    var cs := s.cycles;
    forall h | 0 <= h < |s'.groups|
      ensures if s'.groups[h].status == Pending then CycleCount(s'.cycles, h) == 0
              else FindActiveCycle(s'.cycles, h).Some? && MemberCount(s'.memberships, h) >= 2
    {
      if h == gid {
        assert s'.cycles[|cs|] == next;
        if s.groups[gid].status == Pending {
          NoCycleOfGroup(cs, gid, c);
        }
      } else if s.groups[h].status != Pending {
        var a := FindActiveCycle(cs, h).value;
        assert s'.cycles[a] == cs[a];
      }
    }
  }

  /** Completing a group's active cycle and opening the next-numbered one keeps the cycles numbered
      and the active ones latest, and adds one to that group's count of cycles. */
  lemma RolloverCycleOrder(cs: seq<Cycle>, c: CycleId, next: Cycle)
    requires CyclesNumbered(cs) && ActiveCycleIsLatest(cs) && c < |cs| && cs[c].status == CycleActive
    requires next.group == cs[c].group && next.cycleNumber == cs[c].cycleNumber + 1
    ensures var cs' := cs[c := cs[c].(status := CycleCompleted)] + [next];
            CyclesNumbered(cs') && ActiveCycleIsLatest(cs') &&
            forall h :: CycleCount(cs', h) == CycleCount(cs, h) + (if h == next.group then 1 else 0)
  {
    var cs1 := cs[c := cs[c].(status := CycleCompleted)];
    CompleteKeepsCycleOrder(cs, c);
    AppendKeepsCycleOrder(cs1, next);
    forall h
      ensures CycleCount(cs1 + [next], h) == CycleCount(cs, h) + (if h == next.group then 1 else 0)
    {
      CycleCountAppend(cs1, next, h);
    }
  }

  lemma RolloverKeepsCycles(s: Store, s': Store, gid: GroupId, c: CycleId, next: Cycle)
    requires WellFormed(s) && CyclesNumbered(s.cycles) && ActiveCycleIsLatest(s.cycles) && StatusMatchesCycles(s.groups, s.memberships, s.cycles)
    requires gid < |s.groups| && FindActiveCycle(s.cycles, gid) == Some(c)
    requires next.group == gid && next.cycleNumber == s.cycles[c].cycleNumber + 1 && next.status == CycleActive
    requires s' == s.(cycles := s.cycles[c := s.cycles[c].(status := CycleCompleted)] + [next])
    ensures WellFormed(s') && CyclesNumbered(s'.cycles) && ActiveCycleIsLatest(s'.cycles) && StatusMatchesCycles(s'.groups, s'.memberships, s'.cycles)
  {
    RolloverCycleOrder(s.cycles, c, next);
    RolloverKeepsStatus(s, s', gid, c, next);
    RolloverKeepsGroups(s, s', c, next);
  }

  /** A rollover leaves every earlier cycle in its group and the new one in a known group. */
  lemma RolloverKeepsGroups(s: Store, s': Store, c: CycleId, next: Cycle)
    requires WellFormed(s) && c < |s.cycles| && next.group < |s.groups|
    requires s' == s.(cycles := s.cycles[c := s.cycles[c].(status := CycleCompleted)] + [next])
    ensures WellFormed(s')
    ensures |s.cycles| < |s'.cycles| && forall i :: 0 <= i < |s.cycles| ==> s'.cycles[i].group == s.cycles[i].group
  {
    forall i | 0 <= i < |s'.cycles|
      ensures s'.cycles[i].group < |s'.groups|
      ensures i < |s.cycles| ==> s'.cycles[i].group == s.cycles[i].group
    {
      if i < |s.cycles| {
        assert s'.cycles[i].group == s.cycles[i].group;
      }
    }
  }

  lemma RolloverKeepsRecipients(s: Store, s': Store, gid: GroupId, c: CycleId, k: MembershipId)
    requires OneMembershipPerUser(s.memberships) && RecipientsRotate(s.memberships, s.cycles)
    requires c < |s.cycles| && s.cycles[c].group == gid
    requires k < |s.memberships| && s.memberships[k].group == gid
    requires MemberCount(s.memberships, gid) >= 1 && s.cycles[c].cycleNumber >= 1
    requires s.memberships[k].payoutOrder ==
             RoundRobin.RecipientOrder(s.cycles[c].cycleNumber + 1, MemberCount(s.memberships, gid))
    requires s' == s.(cycles := s.cycles[c := s.cycles[c].(status := CycleCompleted)] +
                                [Cycle(gid, s.cycles[c].cycleNumber + 1, CycleActive, Some(s.memberships[k].user))])
    ensures RecipientsRotate(s'.memberships, s'.cycles)
  {
    FindMembershipExact(s.memberships, k);
    forall i | 0 <= i < |s'.cycles|
      ensures RecipientHoldsOrder(s'.memberships, s'.cycles, i)
    {
      if i < |s.cycles| {
        assert RecipientHoldsOrder(s.memberships, s.cycles, i);
      }
    }
  }

  lemma RolloverPreservesInvariant(s: Store, s': Store, gid: GroupId, c: CycleId, k: MembershipId)
    requires EngineInvariant(s)
    requires gid < |s.groups| && FindActiveCycle(s.cycles, gid) == Some(c) && s.cycles[c].cycleNumber >= 1
    requires k < |s.memberships| && s.memberships[k].group == gid
    requires s.memberships[k].payoutOrder ==
             RoundRobin.RecipientOrder(s.cycles[c].cycleNumber + 1, MemberCount(s.memberships, gid))
    requires s' == s.(cycles := s.cycles[c := s.cycles[c].(status := CycleCompleted)] +
                                [Cycle(gid, s.cycles[c].cycleNumber + 1, CycleActive, Some(s.memberships[k].user))])
    ensures EngineInvariant(s')
  {
    var next := Cycle(gid, s.cycles[c].cycleNumber + 1, CycleActive, Some(s.memberships[k].user));
    RolloverKeepsCycles(s, s', gid, c, next);
    RolloverKeepsRecipients(s, s', gid, c, k);
    RolloverKeepsGroups(s, s', c, next);
    SettledKept(s, s');
  }

  /** The outcome of a rollover whose lookups all succeed. */
  lemma RolloverShape(s: Store, gid: GroupId, user: UserId, c: CycleId, m: MembershipId, k: MembershipId)
    requires WellFormed(s)
    requires gid < |s.groups| && s.groups[gid].owner == user && FindActiveCycle(s.cycles, gid) == Some(c)
    requires MemberCount(s.memberships, gid) >= 1 && SuccessCount(s.transactions, c) >= MemberCount(s.memberships, gid)
    requires s.cycles[c].payoutRecipient.Some?
    requires FindMembership(s.memberships, gid, s.cycles[c].payoutRecipient.value) == Some(m)
    requires FindByPayoutOrder(s.memberships, gid,
               RoundRobin.NextPayoutOrder(s.memberships[m].payoutOrder, MemberCount(s.memberships, gid))) == Some(k)
    ensures OpenNextCycle(s, gid, c) == ProcessNextCycle(s, gid, user) ==
            (Ok(Cycle(gid, s.cycles[c].cycleNumber + 1, CycleActive, Some(s.memberships[k].user))),
             s.(cycles := s.cycles[c := s.cycles[c].(status := CycleCompleted)] +
                          [Cycle(gid, s.cycles[c].cycleNumber + 1, CycleActive, Some(s.memberships[k].user))]))
  {
  }

  lemma ProcessNextCyclePreservesInvariant(s: Store, gid: GroupId, user: UserId)
    requires EngineInvariant(s)
    ensures EngineInvariant(ProcessNextCycle(s, gid, user).1)
  {
    var out := ProcessNextCycle(s, gid, user);
    if gid < |s.groups| && s.groups[gid].owner == user && FindActiveCycle(s.cycles, gid).Some? {
      var c := FindActiveCycle(s.cycles, gid).value;
      RolloverLookups(s, gid, c);
      var ms := s.memberships;
      var total := MemberCount(ms, gid);
      if SuccessCount(s.transactions, c) >= total {
        var m := FindMembership(ms, gid, s.cycles[c].payoutRecipient.value).value;
        var k := FindByPayoutOrder(ms, gid, RoundRobin.NextPayoutOrder(ms[m].payoutOrder, total)).value;
        RolloverShape(s, gid, user, c, m, k);
        RolloverPreservesInvariant(s, out.1, gid, c, k);
      } else {
        assert out.1 == s;
      }
    } else {
      assert out.1 == s;
    }
  }
}
