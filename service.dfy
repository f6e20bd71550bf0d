/** The service itself: the four repository tables as fields, and each
    operation as a method making the service's reads and saves in the
    service's order.  Each method is proved to leave exactly the store, and
    return exactly the result, that the engine's specification function
    gives, and to keep the engine invariant. */
module Service {
  import opened Entities
  import opened Repository
  import RoundRobin
  import GroupDto
  import EqubEngine
  import EngineInvariantProofs

  class EqubGroupsService {
    var groups: seq<Group>
    var memberships: seq<Membership>
    var cycles: seq<Cycle>
    var transactions: seq<Transaction>

    /** The contents of the four tables. */
    function Snapshot(): Store
      reads this
    {
      Store(groups, memberships, cycles, transactions)
    }

    ghost predicate Valid()
      reads this
    {
      EqubEngine.EngineInvariant(Snapshot())
    }

    constructor()
      ensures Snapshot() == EqubEngine.EmptyStore && Valid()
    {
      groups, memberships, cycles, transactions := [], [], [], [];
      EngineInvariantProofs.EmptyStoreInvariant();
    }

    /** Saves the new group, then the owner's membership with payout order 1. */
    method CreateGroup(dto: GroupDto.CreateGroupDto, owner: UserId) returns (g: GroupId)
      requires WellFormed(Snapshot())
      modifies this
      ensures (g, Snapshot()) == EqubEngine.CreateGroup(old(Snapshot()), dto, owner)
      ensures WellFormed(Snapshot())
      ensures old(Valid()) ==> Valid()
    {
      if Valid() {
        EngineInvariantProofs.CreateGroupPreservesInvariant(Snapshot(), dto, owner);
      }
      var newGroup := Group(dto.name, dto.description, dto.contributionAmount, dto.frequency, Pending, owner);
      groups := groups + [newGroup];
      g := |groups| - 1;
      memberships := memberships + [Membership(g, owner, 1)];
    }

    method JoinGroup(gid: GroupId, user: UserId) returns (r: Result<Membership>)
      requires WellFormed(Snapshot())
      modifies this
      ensures (r, Snapshot()) == EqubEngine.JoinGroup(old(Snapshot()), gid, user)
      ensures WellFormed(Snapshot())
      ensures old(Valid()) ==> Valid()
    {
      if Valid() {
        EngineInvariantProofs.JoinGroupPreservesInvariant(Snapshot(), gid, user);
      }
      if gid >= |groups| {
        return Err(NotFound(GroupNotFound));
      }
      var group := groups[gid];
      if group.status != Pending {
        return Err(Conflict(NotAcceptingMembers));
      }
      var existing := FindMembership(memberships, gid, user);
      if existing.Some? {
        return Err(Conflict(AlreadyMember));
      }
      var memberCount := MemberCount(memberships, gid);
      var newMembership := Membership(gid, user, memberCount + 1);
      memberships := memberships + [newMembership];
      r := Ok(newMembership);
    }

    /** Saves the contribution as PENDING, then rewrites its status from the gateway's answer
        `gatewaySuccess` and saves it again. */
    method MakePayment(gid: GroupId, user: UserId, gatewaySuccess: bool) returns (r: Result<Transaction>)
      requires WellFormed(Snapshot())
      modifies this
      ensures (r, Snapshot()) == EqubEngine.MakePayment(old(Snapshot()), gid, user, gatewaySuccess)
      ensures WellFormed(Snapshot())
      ensures old(Valid()) ==> Valid()
    {
      if Valid() {
        EngineInvariantProofs.MakePaymentPreservesInvariant(Snapshot(), gid, user, gatewaySuccess);
      }
      var membership := FindMembership(memberships, gid, user);
      if membership.None? {
        return Err(Forbidden(NotAMember));
      }
      var m := membership.value;
      var group := groups[memberships[m].group];
      if group.status != Active {
        return Err(Conflict(GroupNotActive));
      }
      var activeCycle := FindActiveCycle(cycles, gid);
      if activeCycle.None? {
        return Err(NotFound(NoActiveCycle));
      }
      var c := activeCycle.value;
      var existing := FindSuccess(transactions, m, c);
      if existing.Some? {
        return Err(Conflict(AlreadyPaid));
      }
      ghost var before := transactions;
      var newTransaction := Transaction(m, c, group.contributionAmount, TxPending);
      transactions := transactions + [newTransaction];
      var id := |transactions| - 1;
      newTransaction := newTransaction.(status := EqubEngine.Settle(gatewaySuccess));
      transactions := transactions[id := newTransaction];
      assert transactions == before + [newTransaction];
      r := Ok(newTransaction);
    }

    /** Saves cycle 1, paid to the member holding payout order 1, then marks the group active. */
    method StartGroup(gid: GroupId, user: UserId) returns (r: Result<Group>)
      requires WellFormed(Snapshot())
      modifies this
      ensures (r, Snapshot()) == EqubEngine.StartGroup(old(Snapshot()), gid, user)
      ensures WellFormed(Snapshot())
      ensures old(Valid()) ==> Valid()
    {
      if Valid() {
        EngineInvariantProofs.StartGroupPreservesInvariant(Snapshot(), gid, user);
      }
      if gid >= |groups| {
        return Err(NotFound(GroupNotFound));
      }
      var group := groups[gid];
      if group.owner != user {
        return Err(Forbidden(NotOwner));
      }
      if group.status != Pending {
        return Err(Conflict(AlreadyStarted));
      }
      if MemberCount(memberships, gid) < 2 {
        return Err(Conflict(TooFewMembers));
      }
      var firstRecipient := FindByPayoutOrder(memberships, gid, 1);
      if firstRecipient.None? {
        return Err(Conflict(NoFirstRecipient));
      }
      var firstCycle := Cycle(gid, 1, CycleActive, Some(memberships[firstRecipient.value].user));
      cycles := cycles + [firstCycle];
      group := group.(status := Active);
      groups := groups[gid := group];
      r := Ok(group);
    }

    /** Refuses the rollover to anyone but the owner, without an active cycle, or while a member still
        owes for it; otherwise opens the next cycle. */
    method ProcessNextCycle(gid: GroupId, user: UserId) returns (r: Result<Cycle>)
      requires WellFormed(Snapshot())
      modifies this
      ensures (r, Snapshot()) == EqubEngine.ProcessNextCycle(old(Snapshot()), gid, user)
      ensures WellFormed(Snapshot())
      ensures old(Valid()) ==> Valid()
    {
      if Valid() {
        EngineInvariantProofs.ProcessNextCyclePreservesInvariant(Snapshot(), gid, user);
      }
      if gid >= |groups| {
        return Err(NotFound(GroupNotFound));
      }
      var group := groups[gid];
      if group.owner != user {
        return Err(Forbidden(NotOwner));
      }
      var activeCycle := FindActiveCycle(cycles, gid);
      if activeCycle.None? {
        return Err(NotFound(NoActiveCycle));
      }
      var c := activeCycle.value;
      var totalMembers := MemberCount(memberships, gid);
      var successfulTransactions := SuccessCount(transactions, c);
      if successfulTransactions < totalMembers {
        return Err(Conflict(Unpaid(totalMembers - successfulTransactions)));
      }
      r := OpenNextCycle(gid, c, totalMembers);
    }

    /** Saves the active cycle `c` as completed, then looks up its recipient's membership and saves the
        next cycle, paid to the member holding the next payout order. */
    method OpenNextCycle(gid: GroupId, c: CycleId, totalMembers: nat) returns (r: Result<Cycle>)
      requires WellFormed(Snapshot()) && c < |cycles| && cycles[c].group == gid
      requires totalMembers == MemberCount(memberships, gid)
      modifies this
      ensures (r, Snapshot()) == EqubEngine.OpenNextCycle(old(Snapshot()), gid, c)
      ensures WellFormed(Snapshot())
    {
      var active := cycles[c];
      cycles := cycles[c := active.(status := CycleCompleted)];
      if active.payoutRecipient.None? {
        return Err(Unhandled);
      }
      var currentRecipient := FindMembership(memberships, gid, active.payoutRecipient.value);
      if currentRecipient.None? {
        return Err(Conflict(RecipientMembershipMissing));
      }
      var current := currentRecipient.value;
      assert MemberGroups(memberships)[current] == gid;
      var nextPayoutOrder := RoundRobin.NextPayoutOrder(memberships[current].payoutOrder, totalMembers);
      var nextRecipient := FindByPayoutOrder(memberships, gid, nextPayoutOrder);
      var recipient := if nextRecipient.Some? then Some(memberships[nextRecipient.value].user) else None;
      var newCycle := Cycle(gid, active.cycleNumber + 1, CycleActive, recipient);
      cycles := cycles + [newCycle];
      r := Ok(newCycle);
    }
  }
}
