/** The equb cycle engine as functions on the whole store: for each service
    operation, the result it returns and the store it leaves, with its checks
    in the order the service makes them.  `EngineInvariant` states what holds
    of every store the operations can reach. */
module EqubEngine {
  import opened Entities
  import opened Repository
  import Numbering
  import RoundRobin
  import GroupDto

  // ---------------------------------------------------------------------------
  // The engine invariant
  // ---------------------------------------------------------------------------

  /** Each group's payout orders are handed out in join order: 1, 2, ..., N. */
  ghost predicate PayoutOrdersNumbered(ms: seq<Membership>) {
    Numbering.Numbered(MemberGroups(ms), PayoutOrders(ms))
  }

  /** A user holds at most one membership per group. */
  ghost predicate OneMembershipPerUser(ms: seq<Membership>) {
    forall i, j :: 0 <= i < j < |ms| && ms[i].group == ms[j].group ==> ms[i].user != ms[j].user
  }

  /** Every group has a member, and the member holding payout order 1 is the group's owner. */
  ghost predicate OwnerHoldsFirstOrder(groups: seq<Group>, ms: seq<Membership>) {
    (forall g :: 0 <= g < |groups| ==> MemberCount(ms, g) >= 1) &&
    (forall i :: 0 <= i < |ms| && ms[i].payoutOrder == 1 && ms[i].group < |groups| ==>
       ms[i].user == groups[ms[i].group].owner)
  }

  /** Each group's cycles are numbered 1, 2, ... in creation order. */
  ghost predicate CyclesNumbered(cs: seq<Cycle>) {
    Numbering.Numbered(CycleGroups(cs), CycleNumbers(cs))
  }

  /** An active cycle is its group's latest one. */
  ghost predicate ActiveCycleIsLatest(cs: seq<Cycle>) {
    forall i :: 0 <= i < |cs| && cs[i].status == CycleActive ==> cs[i].cycleNumber == CycleCount(cs, cs[i].group)
  }

  /** A pending group has no cycle yet; a started group has an active cycle and at least two members. */
  ghost predicate StatusMatchesCycles(groups: seq<Group>, ms: seq<Membership>, cs: seq<Cycle>) {
    forall g :: 0 <= g < |groups| ==>
      if groups[g].status == Pending then CycleCount(cs, g) == 0
      else FindActiveCycle(cs, g).Some? && MemberCount(ms, g) >= 2
  }

  /** Cycle `i` pays a member of its group whose payout order is the round-robin order of the cycle's number. */
  ghost predicate RecipientHoldsOrder(ms: seq<Membership>, cs: seq<Cycle>, i: nat)
    requires i < |cs|
  {
    var c := cs[i];
    var total := MemberCount(ms, c.group);
    total > 0 && c.cycleNumber >= 1 && c.payoutRecipient.Some? &&
    var m := FindMembership(ms, c.group, c.payoutRecipient.value);
    m.Some? && ms[m.value].payoutOrder == RoundRobin.RecipientOrder(c.cycleNumber, total)
  }

  ghost predicate RecipientsRotate(ms: seq<Membership>, cs: seq<Cycle>) {
    forall i :: 0 <= i < |cs| ==> RecipientHoldsOrder(ms, cs, i)
  }

  /** A transaction pays its own group's cycle, for the group's contribution amount, and is settled. */
  ghost predicate TransactionsSettled(s: Store)
    requires WellFormed(s)
  {
    forall t :: 0 <= t < |s.transactions| ==>
      var x := s.transactions[t];
      s.memberships[x.membership].group == s.cycles[x.cycle].group &&
      x.amount == s.groups[s.cycles[x.cycle].group].contributionAmount &&
      x.status != TxPending
  }

  /** At most one SUCCESS transaction per (membership, cycle) pair. */
  ghost predicate OneSuccessPerObligation(ts: seq<Transaction>) {
    forall t, u :: 0 <= t < u < |ts| && ts[t].status == TxSuccess && ts[u].status == TxSuccess ==>
      ts[t].membership != ts[u].membership || ts[t].cycle != ts[u].cycle
  }

  ghost predicate EngineInvariant(s: Store) {
    WellFormed(s) &&
    PayoutOrdersNumbered(s.memberships) &&
    OneMembershipPerUser(s.memberships) &&
    OwnerHoldsFirstOrder(s.groups, s.memberships) &&
    CyclesNumbered(s.cycles) &&
    ActiveCycleIsLatest(s.cycles) &&
    StatusMatchesCycles(s.groups, s.memberships, s.cycles) &&
    RecipientsRotate(s.memberships, s.cycles) &&
    TransactionsSettled(s) &&
    OneSuccessPerObligation(s.transactions)
  }

  // ---------------------------------------------------------------------------
  // The operations
  // ---------------------------------------------------------------------------

  const EmptyStore: Store := Store([], [], [], [])

  /** createGroup: a new pending group owned by `owner`, and the owner's membership with payout order 1. */
  function CreateGroup(s: Store, dto: GroupDto.CreateGroupDto, owner: UserId): (out: (GroupId, Store))
    ensures WellFormed(s) ==> WellFormed(out.1)
    ensures out.0 == |s.groups| && |out.1.groups| == |s.groups| + 1
    ensures out.1.groups[out.0].status == Pending && out.1.groups[out.0].owner == owner
    ensures out.1.groups[..out.0] == s.groups && out.1.memberships == s.memberships + [Membership(out.0, owner, 1)]
    ensures out.1.cycles == s.cycles && out.1.transactions == s.transactions
  {
    var g := |s.groups|;
    var group := Group(dto.name, dto.description, dto.contributionAmount, dto.frequency, Pending, owner);
    (g, s.(groups := s.groups + [group], memberships := s.memberships + [Membership(g, owner, 1)]))
  }

  /** joinGroup: the new member's payout order is the group's member count plus one. */
  function JoinGroup(s: Store, gid: GroupId, user: UserId): (out: (Result<Membership>, Store))
    ensures out.0.Err? ==> out.1 == s
    ensures out.0 == Err(NotFound(GroupNotFound)) <==> gid >= |s.groups|
    ensures out.0 == Err(Conflict(NotAcceptingMembers)) <==> gid < |s.groups| && s.groups[gid].status != Pending
    ensures out.0 == Err(Conflict(AlreadyMember)) <==>
      gid < |s.groups| && s.groups[gid].status == Pending && FindMembership(s.memberships, gid, user).Some?
    ensures out.0.Ok? <==>
      gid < |s.groups| && s.groups[gid].status == Pending && FindMembership(s.memberships, gid, user).None?
    ensures out.0.Ok? ==>
      out.1 == s.(memberships := s.memberships + [out.0.value]) &&
      out.0.value.group == gid && out.0.value.user == user &&
      MemberCount(out.1.memberships, gid) == MemberCount(s.memberships, gid) + 1 &&
      out.0.value.payoutOrder == MemberCount(out.1.memberships, gid)
  {
    if gid >= |s.groups| then (Err(NotFound(GroupNotFound)), s)
    else if s.groups[gid].status != Pending then (Err(Conflict(NotAcceptingMembers)), s)
    else if FindMembership(s.memberships, gid, user).Some? then (Err(Conflict(AlreadyMember)), s)
    else
      var m := Membership(gid, user, MemberCount(s.memberships, gid) + 1);
      MemberCountAppend(s.memberships, m, gid);
      (Ok(m), s.(memberships := s.memberships + [m]))
  }

  /** The status a pending transaction is resolved to from the gateway's answer. */
  function Settle(gatewaySuccess: bool): (status: TransactionStatus)
    ensures status != TxPending
    ensures status == TxSuccess <==> gatewaySuccess
  {
    if gatewaySuccess then TxSuccess else TxFailed
  }

  /** makePayment: the contribution of `user` to the active cycle of group `gid`,
      settled by the gateway's answer `gatewaySuccess`. */
  function MakePayment(s: Store, gid: GroupId, user: UserId, gatewaySuccess: bool): (out: (Result<Transaction>, Store))
    requires WellFormed(s)
    ensures out.0.Err? ==> out.1 == s
    ensures out.0 == Err(Forbidden(NotAMember)) <==> FindMembership(s.memberships, gid, user).None?
    ensures out.0 == Err(Conflict(GroupNotActive)) <==>
      FindMembership(s.memberships, gid, user).Some? && s.groups[gid].status != Active
    ensures out.0 == Err(NotFound(NoActiveCycle)) <==>
      FindMembership(s.memberships, gid, user).Some? && s.groups[gid].status == Active &&
      FindActiveCycle(s.cycles, gid).None?
    ensures out.0 == Err(Conflict(AlreadyPaid)) <==>
      FindMembership(s.memberships, gid, user).Some? && s.groups[gid].status == Active &&
      FindActiveCycle(s.cycles, gid).Some? &&
      FindSuccess(s.transactions, FindMembership(s.memberships, gid, user).value, FindActiveCycle(s.cycles, gid).value).Some?
    ensures out.0.Ok? <==>
      FindMembership(s.memberships, gid, user).Some? && s.groups[gid].status == Active &&
      FindActiveCycle(s.cycles, gid).Some? &&
      FindSuccess(s.transactions, FindMembership(s.memberships, gid, user).value, FindActiveCycle(s.cycles, gid).value).None?
    ensures out.0.Ok? ==>
      out.1 == s.(transactions := s.transactions + [out.0.value]) &&
      Some(out.0.value.membership) == FindMembership(s.memberships, gid, user) &&
      Some(out.0.value.cycle) == FindActiveCycle(s.cycles, gid) &&
      out.0.value.amount == s.groups[gid].contributionAmount &&
      (out.0.value.status == TxSuccess <==> gatewaySuccess) && out.0.value.status != TxPending
  {
    match FindMembership(s.memberships, gid, user)
    case None => (Err(Forbidden(NotAMember)), s)
    case Some(m) =>
      var group := s.groups[gid];
      if group.status != Active then (Err(Conflict(GroupNotActive)), s)
      else
        match FindActiveCycle(s.cycles, gid)
        case None => (Err(NotFound(NoActiveCycle)), s)
        case Some(c) =>
          if FindSuccess(s.transactions, m, c).Some? then (Err(Conflict(AlreadyPaid)), s)
          else
            var tx := Transaction(m, c, group.contributionAmount, Settle(gatewaySuccess));
            (Ok(tx), s.(transactions := s.transactions + [tx]))
  }

  /** startGroup: opens cycle 1, paid to the member with payout order 1, and marks the group active. */
  function StartGroup(s: Store, gid: GroupId, user: UserId): (out: (Result<Group>, Store))
    ensures out.0.Err? ==> out.1 == s
    ensures out.0 == Err(NotFound(GroupNotFound)) <==> gid >= |s.groups|
    ensures out.0 == Err(Forbidden(NotOwner)) <==> gid < |s.groups| && s.groups[gid].owner != user
    ensures out.0 == Err(Conflict(AlreadyStarted)) <==>
      gid < |s.groups| && s.groups[gid].owner == user && s.groups[gid].status != Pending
    ensures out.0 == Err(Conflict(TooFewMembers)) <==>
      gid < |s.groups| && s.groups[gid].owner == user && s.groups[gid].status == Pending &&
      MemberCount(s.memberships, gid) < 2
    ensures out.0 == Err(Conflict(NoFirstRecipient)) <==>
      gid < |s.groups| && s.groups[gid].owner == user && s.groups[gid].status == Pending &&
      MemberCount(s.memberships, gid) >= 2 && FindByPayoutOrder(s.memberships, gid, 1).None?
    ensures out.0.Ok? <==>
      gid < |s.groups| && s.groups[gid].owner == user && s.groups[gid].status == Pending &&
      MemberCount(s.memberships, gid) >= 2 && FindByPayoutOrder(s.memberships, gid, 1).Some?
    ensures out.0.Ok? ==>
      gid < |s.groups| && out.0.value == s.groups[gid].(status := Active) &&
      out.1.groups == s.groups[gid := out.0.value] &&
      out.1.memberships == s.memberships && out.1.transactions == s.transactions &&
      var first := FindByPayoutOrder(s.memberships, gid, 1).value;
      out.1.cycles == s.cycles + [Cycle(gid, 1, CycleActive, Some(s.memberships[first].user))]
  {
    if gid >= |s.groups| then (Err(NotFound(GroupNotFound)), s)
    else if s.groups[gid].owner != user then (Err(Forbidden(NotOwner)), s)
    else if s.groups[gid].status != Pending then (Err(Conflict(AlreadyStarted)), s)
    else if MemberCount(s.memberships, gid) < 2 then (Err(Conflict(TooFewMembers)), s)
    else
      match FindByPayoutOrder(s.memberships, gid, 1)
      case None => (Err(Conflict(NoFirstRecipient)), s)
      case Some(m) =>
        var first := Cycle(gid, 1, CycleActive, Some(s.memberships[m].user));
        var started := s.groups[gid].(status := Active);
        (Ok(started), s.(cycles := s.cycles + [first], groups := s.groups[gid := started]))
  }

  /** The store once the active cycle `c` is saved as completed. */
  function CompleteCycle(s: Store, c: CycleId): (s': Store)
    requires c < |s.cycles|
    ensures |s'.cycles| == |s.cycles| && s'.cycles[c] == s.cycles[c].(status := CycleCompleted)
    ensures forall i :: 0 <= i < |s.cycles| && i != c ==> s'.cycles[i] == s.cycles[i]
    ensures s'.groups == s.groups && s'.memberships == s.memberships && s'.transactions == s.transactions
  {
    s.(cycles := s.cycles[c := s.cycles[c].(status := CycleCompleted)])
  }

  /** The second half of processNextCycle, once every member has paid for the active cycle `c`:
      saves `c` as completed, then looks up its recipient's membership and opens the next cycle, paid
      to the member holding the next payout order in the rotation.  The completion is saved before
      the lookups, so their failures leave it in place. */
  function OpenNextCycle(s: Store, gid: GroupId, c: CycleId): (out: (Result<Cycle>, Store))
    requires WellFormed(s) && c < |s.cycles| && s.cycles[c].group == gid
    ensures WellFormed(out.1)
    ensures out.0.Ok? || out.0 == Err(Unhandled) || out.0 == Err(Conflict(RecipientMembershipMissing))
    ensures out.0 == Err(Unhandled) <==> s.cycles[c].payoutRecipient.None?
    ensures out.0 == Err(Conflict(RecipientMembershipMissing)) <==>
      s.cycles[c].payoutRecipient.Some? && FindMembership(s.memberships, gid, s.cycles[c].payoutRecipient.value).None?
    ensures out.0.Ok? ==>
      s.cycles[c].payoutRecipient.Some? &&
      var m := FindMembership(s.memberships, gid, s.cycles[c].payoutRecipient.value);
      m.Some? &&
      var k := FindByPayoutOrder(s.memberships, gid,
                 RoundRobin.NextPayoutOrder(s.memberships[m.value].payoutOrder, MemberCount(s.memberships, gid)));
      (out.0.value.payoutRecipient.None? <==> k.None?) &&
      (k.Some? ==> out.0.value.payoutRecipient == Some(s.memberships[k.value].user))
    ensures out.1.groups == s.groups && out.1.memberships == s.memberships && out.1.transactions == s.transactions
    ensures out.0.Ok? ==>
      out.1.cycles == CompleteCycle(s, c).cycles + [out.0.value] &&
      out.0.value.group == gid && out.0.value.status == CycleActive &&
      out.0.value.cycleNumber == s.cycles[c].cycleNumber + 1
    ensures out.0.Err? ==> out.1 == CompleteCycle(s, c)
  {
    var active := s.cycles[c];
    var completed := CompleteCycle(s, c);
    match active.payoutRecipient
    case None => (Err(Unhandled), completed)
    case Some(u) =>
      match FindMembership(s.memberships, gid, u)
      case None => (Err(Conflict(RecipientMembershipMissing)), completed)
      case Some(m) =>
        assert MemberGroups(s.memberships)[m] == gid;
        var nextOrder := RoundRobin.NextPayoutOrder(s.memberships[m].payoutOrder, MemberCount(s.memberships, gid));
        var recipient :=
          match FindByPayoutOrder(s.memberships, gid, nextOrder)
          case None => None
          case Some(k) => Some(s.memberships[k].user);
        var next := Cycle(gid, active.cycleNumber + 1, CycleActive, recipient);
        (Ok(next), completed.(cycles := completed.cycles + [next]))
  }

  /** processNextCycle: only the owner may roll a group over, and only once no member still owes
      for the active cycle; then the cycle is completed and the next one opened. */
  function ProcessNextCycle(s: Store, gid: GroupId, user: UserId): (out: (Result<Cycle>, Store))
    requires WellFormed(s)
    ensures out.0.Err? && out.0.error != Unhandled && out.0.error != Conflict(RecipientMembershipMissing) ==>
      out.1 == s
    ensures out.0 == Err(NotFound(GroupNotFound)) <==> gid >= |s.groups|
    ensures out.0 == Err(Forbidden(NotOwner)) <==> gid < |s.groups| && s.groups[gid].owner != user
    ensures out.0 == Err(NotFound(NoActiveCycle)) <==>
      gid < |s.groups| && s.groups[gid].owner == user && FindActiveCycle(s.cycles, gid).None?
    ensures out.0.Err? ==>
      out.0.error in {NotFound(GroupNotFound), Forbidden(NotOwner), NotFound(NoActiveCycle), Unhandled,
                      Conflict(RecipientMembershipMissing)} ||
      (out.0.error.Conflict? && out.0.error.conflict.Unpaid?)
    ensures out.0.Err? && out.0.error.Conflict? && out.0.error.conflict.Unpaid? <==>
      gid < |s.groups| && s.groups[gid].owner == user && FindActiveCycle(s.cycles, gid).Some? &&
      SuccessCount(s.transactions, FindActiveCycle(s.cycles, gid).value) < MemberCount(s.memberships, gid)
    ensures out.0.Err? && out.0.error.Conflict? && out.0.error.conflict.Unpaid? ==>
      out.0.error.conflict.unpaidMembers ==
      MemberCount(s.memberships, gid) - SuccessCount(s.transactions, FindActiveCycle(s.cycles, gid).value)
    ensures (out.0.Err? && (out.0.error == Unhandled || out.0.error == Conflict(RecipientMembershipMissing))) || out.0.Ok? ==>
      FindActiveCycle(s.cycles, gid).Some? &&
      SuccessCount(s.transactions, FindActiveCycle(s.cycles, gid).value) >= MemberCount(s.memberships, gid) &&
      out == OpenNextCycle(s, gid, FindActiveCycle(s.cycles, gid).value)
  {
    if gid >= |s.groups| then (Err(NotFound(GroupNotFound)), s)
    else if s.groups[gid].owner != user then (Err(Forbidden(NotOwner)), s)
    else
      match FindActiveCycle(s.cycles, gid)
      case None => (Err(NotFound(NoActiveCycle)), s)
      case Some(c) =>
        var totalMembers := MemberCount(s.memberships, gid);
        var paid := SuccessCount(s.transactions, c);
        if paid < totalMembers then (Err(Conflict(Unpaid(totalMembers - paid))), s)
        else OpenNextCycle(s, gid, c)
  }
}
