/** What the engine promises its users, proved over the specification
    functions: how each operation's outcome depends on the store, and what
    holds across several operations. */
module EngineProperties {
  import opened Entities
  import opened Repository
  import Numbering
  import RoundRobin
  import GroupDto
  import opened EqubEngine
  import opened EngineInvariantProofs

  // ---------------------------------------------------------------------------
  // createGroup and joinGroup
  // ---------------------------------------------------------------------------

  /** A new group is pending, carries the request's fields, and has exactly one member: its owner, with payout order 1. */
  lemma CreateGroupEnrollsOwner(s: Store, dto: GroupDto.CreateGroupDto, owner: UserId)
    requires WellFormed(s)
    ensures var (g, s') := CreateGroup(s, dto, owner);
            g == |s.groups| && |s'.groups| == g + 1 && s'.groups[..g] == s.groups &&
            s'.groups[g] == Group(dto.name, dto.description, dto.contributionAmount, dto.frequency, Pending, owner) &&
            MemberCount(s'.memberships, g) == 1 &&
            FindMembership(s'.memberships, g, owner) == Some(|s.memberships|) &&
            s'.memberships[|s.memberships|].payoutOrder == 1 &&
            s'.memberships[..|s.memberships|] == s.memberships &&
            s'.cycles == s.cycles && s'.transactions == s.transactions
  {
    var g, ms := |s.groups|, s.memberships;
    var m := Membership(g, owner, 1);
    assert g !in MemberGroups(ms);
    MemberCountAppend(ms, m, g);
    assert (ms + [m])[..|ms|] == ms;
    assert (s.groups + [CreateGroup(s, dto, owner).1.groups[g]])[..g] == s.groups;
  }

  /** The set of a group's payout orders. */
  ghost function GroupPayoutOrders(ms: seq<Membership>, g: GroupId): set<int> {
    set i | 0 <= i < |ms| && ms[i].group == g :: ms[i].payoutOrder
  }

  /** A group of N members holds the payout orders 1..N, each exactly once. */
  lemma PayoutOrdersExact(ms: seq<Membership>, g: GroupId)
    requires PayoutOrdersNumbered(ms)
    ensures forall k :: k in GroupPayoutOrders(ms, g) <==> 1 <= k <= MemberCount(ms, g)
    ensures forall i, j :: 0 <= i < j < |ms| && ms[i].group == g && ms[j].group == g ==>
              ms[i].payoutOrder != ms[j].payoutOrder
  {
    var keys, nums := MemberGroups(ms), PayoutOrders(ms);
    forall k: int | 1 <= k <= MemberCount(ms, g)
      ensures k in GroupPayoutOrders(ms, g)
    {
      var i := Numbering.NumberedCovers(keys, nums, g, k);
      assert ms[i].group == g && ms[i].payoutOrder == k;
    }
    forall i | 0 <= i < |ms| && ms[i].group == g
      ensures 1 <= ms[i].payoutOrder <= MemberCount(ms, g)
    {
      Numbering.NumberedRange(keys, nums, i);
    }
    forall i, j | 0 <= i < j < |ms| && ms[i].group == g && ms[j].group == g
      ensures ms[i].payoutOrder != ms[j].payoutOrder
    {
      Numbering.NumberedIncreasing(keys, nums, i, j);
    }
  }

  /** Joining twice is refused: the second request finds the first membership. */
  lemma JoinGroupOnce(s: Store, gid: GroupId, user: UserId)
    requires JoinGroup(s, gid, user).0.Ok?
    ensures var s' := JoinGroup(s, gid, user).1;
            JoinGroup(s', gid, user) == (Err(Conflict(AlreadyMember)), s')
  {
    var s' := JoinGroup(s, gid, user).1;
    assert s'.memberships[|s.memberships|].group == gid && s'.memberships[|s.memberships|].user == user;
  }

  // ---------------------------------------------------------------------------
  // makePayment
  // ---------------------------------------------------------------------------

  /** After a payment went through, paying again for the same cycle is refused exactly when the
      first one succeeded: a failed payment may be retried, a successful one may not. */
  lemma RepeatedPayment(s: Store, gid: GroupId, user: UserId, first: bool, second: bool)
    requires WellFormed(s) && MakePayment(s, gid, user, first).0.Ok?
    ensures var s' := MakePayment(s, gid, user, first).1;
            WellFormed(s') &&
            (first ==> MakePayment(s', gid, user, second) == (Err(Conflict(AlreadyPaid)), s')) &&
            (!first ==> MakePayment(s', gid, user, second).0.Ok?)
  {
    var (r, s') := MakePayment(s, gid, user, first);
    var ts, x := s.transactions, r.value;
    var m, c := x.membership, x.cycle;
    assert s'.transactions == ts + [x];
    assert (ts + [x])[..|ts|] == ts;
    if first {
      assert FindSuccess(s'.transactions, m, c) == Some(|ts|);
    } else {
      assert FindSuccess(s'.transactions, m, c) == FindSuccess(ts, m, c);
    }
  }

  // ---------------------------------------------------------------------------
  // startGroup
  // ---------------------------------------------------------------------------

  /** Under the invariant, once the owner asks to start a pending group the only possible refusal is
      too few members; otherwise cycle 1 opens, paid to the owner. */
  lemma StartGroupOutcome(s: Store, gid: GroupId, user: UserId)
    requires EngineInvariant(s)
    requires gid < |s.groups| && s.groups[gid].owner == user && s.groups[gid].status == Pending
    ensures MemberCount(s.memberships, gid) < 2 ==> StartGroup(s, gid, user) == (Err(Conflict(TooFewMembers)), s)
    ensures MemberCount(s.memberships, gid) >= 2 ==>
            var (r, s') := StartGroup(s, gid, user);
            r.Ok? && r.value.status == Active &&
            s'.cycles == s.cycles + [Cycle(gid, 1, CycleActive, Some(user))] &&
            FindActiveCycle(s'.cycles, gid) == Some(|s.cycles|) &&
            forall i :: 0 <= i < |s'.cycles| && s'.cycles[i].group == gid && s'.cycles[i].status == CycleActive ==>
              i == |s.cycles|
  {
    if MemberCount(s.memberships, gid) >= 2 {
      PayoutOrderHeld(s.memberships, gid, 1);
      var j := FindByPayoutOrder(s.memberships, gid, 1).value;
      assert s.memberships[j].user == user;
      var s' := StartGroup(s, gid, user).1;
      StartGroupPreservesInvariant(s, gid, user);
      assert s'.cycles[|s.cycles|] == Cycle(gid, 1, CycleActive, Some(user));
      OnlyActiveCycle(s'.cycles, |s.cycles|);
    }
  }

  /** StartGroup's last check (no member holding payout order 1) never fires on a reachable store. */
  lemma StartGroupFindsFirstRecipient(s: Store, gid: GroupId, user: UserId)
    requires EngineInvariant(s)
    ensures StartGroup(s, gid, user).0 != Err(Conflict(NoFirstRecipient))
  {
    if gid < |s.groups| && s.groups[gid].owner == user && s.groups[gid].status == Pending {
      StartGroupOutcome(s, gid, user);
    }
  }

  // ---------------------------------------------------------------------------
  // processNextCycle: who has paid
  // ---------------------------------------------------------------------------

  /** The memberships of group `g`. */
  ghost function Members(ms: seq<Membership>, g: GroupId): set<MembershipId> {
    set i | 0 <= i < |ms| && ms[i].group == g
  }

  /** The memberships with a SUCCESS transaction for cycle `c`. */
  ghost function Payers(ts: seq<Transaction>, c: CycleId): set<MembershipId> {
    set t | 0 <= t < |ts| && ts[t].cycle == c && ts[t].status == TxSuccess :: ts[t].membership
  }

  /** The member count is the number of the group's memberships. */
  lemma {:induction false} MembersCounted(ms: seq<Membership>, g: GroupId)
    ensures |Members(ms, g)| == MemberCount(ms, g)
  {
    if ms != [] {
      var init, last := ms[..|ms| - 1], ms[|ms| - 1];
      assert ms == init + [last];
      MembersCounted(init, g);
      MemberCountAppend(init, last, g);
      assert |init| !in Members(init, g);
      if last.group == g {
        assert Members(ms, g) == Members(init, g) + {|init|};
      } else {
        assert Members(ms, g) == Members(init, g);
      }
    }
  }

  lemma PayersAppend(ts: seq<Transaction>, x: Transaction, c: CycleId)
    ensures Payers(ts + [x], c) == Payers(ts, c) + (if x.cycle == c && x.status == TxSuccess then {x.membership} else {})
  {
    var ts' := ts + [x];
    assert forall t :: 0 <= t < |ts| ==> ts'[t] == ts[t];
    assert ts'[|ts|] == x;
  }

  /** With one success per (membership, cycle), the success count is the number of paying members. */
  lemma {:induction false} PayersCounted(ts: seq<Transaction>, c: CycleId)
    requires OneSuccessPerObligation(ts)
    ensures |Payers(ts, c)| == SuccessCount(ts, c)
  {
    if ts != [] {
      var init, x := ts[..|ts| - 1], ts[|ts| - 1];
      assert ts == init + [x];
      PayersCounted(init, c);
      SuccessCountAppend(init, x, c);
      PayersAppend(init, x, c);
      if x.cycle == c && x.status == TxSuccess {
        forall t | 0 <= t < |init| && init[t].cycle == c && init[t].status == TxSuccess
          ensures init[t].membership != x.membership
        {
          assert ts[t] == init[t];
        }
        assert x.membership !in Payers(init, c);
      }
    }
  }

  /** Everyone who paid for a group's cycle is a member of that group. */
  lemma PayersAreMembers(s: Store, gid: GroupId, c: CycleId)
    requires WellFormed(s) && TransactionsSettled(s) && c < |s.cycles| && s.cycles[c].group == gid
    ensures Payers(s.transactions, c) <= Members(s.memberships, gid)
  {
    forall m | m in Payers(s.transactions, c)
      ensures m in Members(s.memberships, gid)
    {
      var t :| 0 <= t < |s.transactions| && s.transactions[t].cycle == c &&
               s.transactions[t].status == TxSuccess && s.transactions[t].membership == m;
    }
  }

  /** A member is a payer exactly when the lookup for its SUCCESS transaction finds one. */
  lemma PayerIffSuccess(ts: seq<Transaction>, c: CycleId, m: MembershipId)
    ensures m in Payers(ts, c) <==> FindSuccess(ts, m, c).Some?
  {
    if FindSuccess(ts, m, c).Some? {
      var t := FindSuccess(ts, m, c).value;
      assert ts[t].membership == m;
    }
  }

  /** A subset of a finite set is no larger, and as large only when it is the whole set. */
  lemma SubsetCard(a: set<MembershipId>, b: set<MembershipId>)
    requires b <= a
    ensures |a - b| == |a| - |b|
    ensures |b| == |a| ==> a == b
  {
    assert a == (a - b) + b && (a - b) * b == {};
    if |b| == |a| {
      assert a - b == {};
    }
  }

  /** The success count of the active cycle never exceeds the member count, so the service's
      `<` check is a `!=` check. */
  lemma PaidAtMostMembers(s: Store, gid: GroupId, c: CycleId)
    requires WellFormed(s) && TransactionsSettled(s) && OneSuccessPerObligation(s.transactions)
    requires c < |s.cycles| && s.cycles[c].group == gid
    ensures SuccessCount(s.transactions, c) <= MemberCount(s.memberships, gid)
  {
    PayersCounted(s.transactions, c);
    MembersCounted(s.memberships, gid);
    PayersAreMembers(s, gid, c);
    SubsetCard(Members(s.memberships, gid), Payers(s.transactions, c));
  }

  /** The unpaid check passes exactly when every member of the cycle's group holds a SUCCESS for it;
      when it fails, members minus successes is the number of members without one. */
  lemma UnpaidCheck(s: Store, gid: GroupId, c: CycleId)
    requires WellFormed(s) && TransactionsSettled(s) && OneSuccessPerObligation(s.transactions)
    requires c < |s.cycles| && s.cycles[c].group == gid
    ensures var ms, ts := s.memberships, s.transactions;
            (SuccessCount(ts, c) >= MemberCount(ms, gid) <==>
             forall m :: 0 <= m < |ms| && ms[m].group == gid ==> FindSuccess(ts, m, c).Some?) &&
            (SuccessCount(ts, c) < MemberCount(ms, gid) ==>
             MemberCount(ms, gid) - SuccessCount(ts, c) == |Members(ms, gid) - Payers(ts, c)|)
  {
    var ms, ts := s.memberships, s.transactions;
    PayersCounted(ts, c);
    MembersCounted(ms, gid);
    PayersAreMembers(s, gid, c);
    SubsetCard(Members(ms, gid), Payers(ts, c));
    forall m | 0 <= m < |ms| && ms[m].group == gid
      ensures m in Payers(ts, c) <==> FindSuccess(ts, m, c).Some?
    {
      PayerIffSuccess(ts, c, m);
    }
  }

  /** On a consistent store, an owner's rollover with an active cycle either succeeds or is refused as unpaid. */
  lemma RolloverOutcome(s: Store, gid: GroupId, user: UserId)
    requires EngineInvariant(s)
    requires gid < |s.groups| && s.groups[gid].owner == user && FindActiveCycle(s.cycles, gid).Some?
    ensures var c := FindActiveCycle(s.cycles, gid).value;
            var r := ProcessNextCycle(s, gid, user).0;
            var paid, total := SuccessCount(s.transactions, c), MemberCount(s.memberships, gid);
            (r.Ok? <==> paid >= total) && (r.Err? ==> r == Err(Conflict(Unpaid(total - paid))))
  {
    RolloverFailureChangesNothing(s, gid, user);
  }

  /** An owner's rollover request on a group with an active cycle succeeds exactly when every member
      holds a SUCCESS transaction for that cycle; otherwise it names how many members have not paid. */
  lemma RolloverNeedsEveryMember(s: Store, gid: GroupId, user: UserId)
    requires EngineInvariant(s)
    requires gid < |s.groups| && s.groups[gid].owner == user && FindActiveCycle(s.cycles, gid).Some?
    ensures var c := FindActiveCycle(s.cycles, gid).value;
            var r := ProcessNextCycle(s, gid, user).0;
            (r.Ok? <==> forall m :: 0 <= m < |s.memberships| && s.memberships[m].group == gid ==>
                          FindSuccess(s.transactions, m, c).Some?) &&
            (r.Err? ==> r == Err(Conflict(Unpaid(|Members(s.memberships, gid) - Payers(s.transactions, c)|))))
  {
    var c := FindActiveCycle(s.cycles, gid).value;
    var ms, ts := s.memberships, s.transactions;
    var paid, total := SuccessCount(ts, c), MemberCount(ms, gid);
    RolloverOutcome(s, gid, user);
    assert paid >= total <==> forall m :: 0 <= m < |ms| && ms[m].group == gid ==> FindSuccess(ts, m, c).Some? by {
      UnpaidCheck(s, gid, c);
    }
    if paid < total {
      assert total - paid == |Members(ms, gid) - Payers(ts, c)| by {
        UnpaidCheck(s, gid, c);
      }
    }
  }

  // ---------------------------------------------------------------------------
  // processNextCycle: the rotation
  // ---------------------------------------------------------------------------

  /** On a reachable store, a refused rollover changes nothing: the two refusals that come after the
      completion is saved cannot occur. */
  lemma RolloverFailureChangesNothing(s: Store, gid: GroupId, user: UserId)
    requires EngineInvariant(s)
    ensures ProcessNextCycle(s, gid, user).0.Err? ==> ProcessNextCycle(s, gid, user).1 == s
    ensures ProcessNextCycle(s, gid, user).0 != Err(Unhandled)
    ensures ProcessNextCycle(s, gid, user).0 != Err(Conflict(RecipientMembershipMissing))
  {
    if gid < |s.groups| && s.groups[gid].owner == user && FindActiveCycle(s.cycles, gid).Some? {
      var c := FindActiveCycle(s.cycles, gid).value;
      RolloverLookups(s, gid, c);
      var ms := s.memberships;
      if SuccessCount(s.transactions, c) >= MemberCount(ms, gid) {
        var m := FindMembership(ms, gid, s.cycles[c].payoutRecipient.value).value;
        var k := FindByPayoutOrder(ms, gid, RoundRobin.NextPayoutOrder(ms[m].payoutOrder, MemberCount(ms, gid))).value;
        RolloverShape(s, gid, user, c, m, k);
      }
    }
  }

  /** A rollover completes the active cycle and opens the next-numbered one, which becomes the group's
      only active cycle and pays the member holding the payout order after the previous recipient's. */
  lemma RolloverRotates(s: Store, gid: GroupId, user: UserId)
    requires EngineInvariant(s) && ProcessNextCycle(s, gid, user).0.Ok?
    ensures var c := FindActiveCycle(s.cycles, gid).value;
            var (r, s') := ProcessNextCycle(s, gid, user);
            var ms, N := s.memberships, MemberCount(s.memberships, gid);
            s'.cycles[c].status == CycleCompleted &&
            r.value.cycleNumber == s.cycles[c].cycleNumber + 1 &&
            FindActiveCycle(s'.cycles, gid) == Some(|s.cycles|) &&
            (forall i :: 0 <= i < |s'.cycles| && s'.cycles[i].group == gid && s'.cycles[i].status == CycleActive ==>
               i == |s.cycles|) &&
            s.cycles[c].payoutRecipient.Some? && r.value.payoutRecipient.Some? &&
            var before := FindMembership(ms, gid, s.cycles[c].payoutRecipient.value);
            var after := FindMembership(ms, gid, r.value.payoutRecipient.value);
            before.Some? && after.Some? &&
            ms[after.value].payoutOrder == RoundRobin.NextPayoutOrder(ms[before.value].payoutOrder, N)
  {
    var c := FindActiveCycle(s.cycles, gid).value;
    var ms, N := s.memberships, MemberCount(s.memberships, gid);
    RolloverLookups(s, gid, c);
    var m := FindMembership(ms, gid, s.cycles[c].payoutRecipient.value).value;
    var k := FindByPayoutOrder(ms, gid, RoundRobin.NextPayoutOrder(ms[m].payoutOrder, N)).value;
    RolloverShape(s, gid, user, c, m, k);
    FindMembershipExact(ms, k);
    var s' := ProcessNextCycle(s, gid, user).1;
    ProcessNextCyclePreservesInvariant(s, gid, user);
    assert s'.cycles[|s.cycles|].status == CycleActive && s'.cycles[|s.cycles|].group == gid;
    OnlyActiveCycle(s'.cycles, |s.cycles|);
  }

  /** Cycle number n pays the member reached after n - 1 rollovers from payout order 1, so the
      recipients run through the orders 1, 2, ..., N, 1, 2, ... */
  lemma CycleRecipientFollowsRotation(s: Store, i: CycleId)
    requires RecipientsRotate(s.memberships, s.cycles) && i < |s.cycles|
    ensures var c := s.cycles[i];
            var N := MemberCount(s.memberships, c.group);
            N >= 1 && c.cycleNumber >= 1 && c.payoutRecipient.Some? &&
            var m := FindMembership(s.memberships, c.group, c.payoutRecipient.value);
            m.Some? && s.memberships[m.value].payoutOrder == RoundRobin.Rotation(c.cycleNumber - 1, N) &&
            (c.cycleNumber <= N ==> s.memberships[m.value].payoutOrder == c.cycleNumber)
  {
    assert RecipientHoldsOrder(s.memberships, s.cycles, i);
    RoundRobin.RotationIsRecipientOrder(s.cycles[i].cycleNumber - 1, MemberCount(s.memberships, s.cycles[i].group));
  }

  /** Two cycles of a group pay the same user exactly when their numbers are a whole number of rounds apart. */
  lemma SameRecipientIffSameRound(s: Store, i: CycleId, j: CycleId)
    requires PayoutOrdersNumbered(s.memberships) && RecipientsRotate(s.memberships, s.cycles)
    requires i < |s.cycles| && j < |s.cycles| && s.cycles[i].group == s.cycles[j].group
    ensures var N := MemberCount(s.memberships, s.cycles[i].group);
            N >= 1 && s.cycles[i].cycleNumber >= 1 && s.cycles[j].cycleNumber >= 1 &&
            (s.cycles[i].payoutRecipient == s.cycles[j].payoutRecipient <==>
             (s.cycles[i].cycleNumber - 1) % N == (s.cycles[j].cycleNumber - 1) % N)
  {
    var ms, g := s.memberships, s.cycles[i].group;
    var N := MemberCount(ms, g);
    assert RecipientHoldsOrder(ms, s.cycles, i);
    assert RecipientHoldsOrder(ms, s.cycles, j);
    var mi := FindMembership(ms, g, s.cycles[i].payoutRecipient.value).value;
    var mj := FindMembership(ms, g, s.cycles[j].payoutRecipient.value).value;
    if (s.cycles[i].cycleNumber - 1) % N == (s.cycles[j].cycleNumber - 1) % N {
      assert ms[mi].payoutOrder == ms[mj].payoutOrder;
      if mi < mj {
        Numbering.NumberedIncreasing(MemberGroups(ms), PayoutOrders(ms), mi, mj);
      } else if mj < mi {
        Numbering.NumberedIncreasing(MemberGroups(ms), PayoutOrders(ms), mj, mi);
      }
    }
  }
}
