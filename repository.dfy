/** The four repository tables and the lookups the service makes on them
    (`findOne`, `findOneBy` and `count` with a `where` filter).  A lookup
    searches from the newest row; under the engine invariant at most one row
    matches each lookup the service makes, so which matching row a database
    would return does not matter. */
module Repository {
  import opened Entities
  import Numbering

  datatype Store = Store(
    groups: seq<Group>,
    memberships: seq<Membership>,
    cycles: seq<Cycle>,
    transactions: seq<Transaction>)

  /** Every row refers to rows that exist. */
  ghost predicate WellFormed(s: Store) {
    (forall i :: 0 <= i < |s.memberships| ==> s.memberships[i].group < |s.groups|) &&
    (forall i :: 0 <= i < |s.cycles| ==> s.cycles[i].group < |s.groups|) &&
    (forall t :: 0 <= t < |s.transactions| ==>
       s.transactions[t].membership < |s.memberships| && s.transactions[t].cycle < |s.cycles|)
  }

  // Columns of the membership and cycle tables, as seen by Numbering.

  function MemberGroups(ms: seq<Membership>): (keys: seq<nat>)
    ensures |keys| == |ms| && forall i :: 0 <= i < |ms| ==> keys[i] == ms[i].group
  {
    seq(|ms|, i requires 0 <= i < |ms| => ms[i].group)
  }

  function PayoutOrders(ms: seq<Membership>): (nums: seq<int>)
    ensures |nums| == |ms| && forall i :: 0 <= i < |ms| ==> nums[i] == ms[i].payoutOrder
  {
    seq(|ms|, i requires 0 <= i < |ms| => ms[i].payoutOrder)
  }

  function CycleGroups(cs: seq<Cycle>): (keys: seq<nat>)
    ensures |keys| == |cs| && forall i :: 0 <= i < |cs| ==> keys[i] == cs[i].group
  {
    seq(|cs|, i requires 0 <= i < |cs| => cs[i].group)
  }

  function CycleNumbers(cs: seq<Cycle>): (nums: seq<int>)
    ensures |nums| == |cs| && forall i :: 0 <= i < |cs| ==> nums[i] == cs[i].cycleNumber
  {
    seq(|cs|, i requires 0 <= i < |cs| => cs[i].cycleNumber)
  }

  /** `membershipRepository.count({ where: { group } })` */
  function MemberCount(ms: seq<Membership>, g: GroupId): nat {
    Numbering.Count(MemberGroups(ms), g)
  }

  /** Number of cycles a group has had. */
  function CycleCount(cs: seq<Cycle>, g: GroupId): nat {
    Numbering.Count(CycleGroups(cs), g)
  }

  /** The membership of user `u` in group `g`. */
  function FindMembership(ms: seq<Membership>, g: GroupId, u: UserId): (r: Option<MembershipId>)
    ensures r.Some? ==> r.value < |ms| && ms[r.value].group == g && ms[r.value].user == u
    ensures r.None? ==> forall i :: 0 <= i < |ms| ==> !(ms[i].group == g && ms[i].user == u)
  {
    if ms == [] then None
    else if ms[|ms| - 1].group == g && ms[|ms| - 1].user == u then Some(|ms| - 1)
    else FindMembership(ms[..|ms| - 1], g, u)
  }

  /** The membership of group `g` holding payout order `k`. */
  function FindByPayoutOrder(ms: seq<Membership>, g: GroupId, k: int): (r: Option<MembershipId>)
    ensures r.Some? ==> r.value < |ms| && ms[r.value].group == g && ms[r.value].payoutOrder == k
    ensures r.None? ==> forall i :: 0 <= i < |ms| ==> !(ms[i].group == g && ms[i].payoutOrder == k)
  {
    if ms == [] then None
    else if ms[|ms| - 1].group == g && ms[|ms| - 1].payoutOrder == k then Some(|ms| - 1)
    else FindByPayoutOrder(ms[..|ms| - 1], g, k)
  }

  /** The cycle of group `g` whose status is 'active'. */
  function FindActiveCycle(cs: seq<Cycle>, g: GroupId): (r: Option<CycleId>)
    ensures r.Some? ==> r.value < |cs| && cs[r.value].group == g && cs[r.value].status == CycleActive
    ensures r.None? ==> forall i :: 0 <= i < |cs| ==> !(cs[i].group == g && cs[i].status == CycleActive)
  {
    if cs == [] then None
    else if cs[|cs| - 1].group == g && cs[|cs| - 1].status == CycleActive then Some(|cs| - 1)
    else FindActiveCycle(cs[..|cs| - 1], g)
  }

  /** A SUCCESS transaction of membership `m` for cycle `c`. */
  function FindSuccess(ts: seq<Transaction>, m: MembershipId, c: CycleId): (r: Option<TransactionId>)
    ensures r.Some? ==> r.value < |ts| && ts[r.value].membership == m && ts[r.value].cycle == c
                        && ts[r.value].status == TxSuccess
    ensures r.None? ==> forall t :: 0 <= t < |ts| ==>
                          !(ts[t].membership == m && ts[t].cycle == c && ts[t].status == TxSuccess)
  {
    if ts == [] then None
    else if ts[|ts| - 1].membership == m && ts[|ts| - 1].cycle == c && ts[|ts| - 1].status == TxSuccess
    then Some(|ts| - 1)
    else FindSuccess(ts[..|ts| - 1], m, c)
  }

  /** `transactionRepository.count({ where: { cycle, status: SUCCESS } })` */
  function SuccessCount(ts: seq<Transaction>, c: CycleId): (n: nat)
    ensures n <= |ts|
    ensures n == 0 <==> forall t :: 0 <= t < |ts| ==> !(ts[t].cycle == c && ts[t].status == TxSuccess)
  {
    if ts == [] then 0
    else
      var init := ts[..|ts| - 1];
      assert forall t :: 0 <= t < |init| ==> init[t] == ts[t];
      SuccessCount(init, c) + (if ts[|ts| - 1].cycle == c && ts[|ts| - 1].status == TxSuccess then 1 else 0)
  }

  // How the lookups behave when a table grows by one row or has one row rewritten.

  lemma MemberGroupsAppend(ms: seq<Membership>, m: Membership)
    ensures MemberGroups(ms + [m]) == MemberGroups(ms) + [m.group]
    ensures PayoutOrders(ms + [m]) == PayoutOrders(ms) + [m.payoutOrder]
  {
  }

  lemma MemberCountAppend(ms: seq<Membership>, m: Membership, g: GroupId)
    ensures MemberCount(ms + [m], g) == MemberCount(ms, g) + (if m.group == g then 1 else 0)
  {
    MemberGroupsAppend(ms, m);
    Numbering.CountAppend(MemberGroups(ms), m.group, g);
  }

  lemma CycleColumnsAppend(cs: seq<Cycle>, c: Cycle)
    ensures CycleGroups(cs + [c]) == CycleGroups(cs) + [c.group]
    ensures CycleNumbers(cs + [c]) == CycleNumbers(cs) + [c.cycleNumber]
  {
  }

  /** Rewriting a cycle's status or recipient leaves the group and number columns as they were. */
  lemma CycleColumnsUpdate(cs: seq<Cycle>, i: nat, c: Cycle)
    requires i < |cs| && c.group == cs[i].group && c.cycleNumber == cs[i].cycleNumber
    ensures CycleGroups(cs[i := c]) == CycleGroups(cs)
    ensures CycleNumbers(cs[i := c]) == CycleNumbers(cs)
  {
  }

  lemma CycleCountAppend(cs: seq<Cycle>, c: Cycle, g: GroupId)
    ensures CycleCount(cs + [c], g) == CycleCount(cs, g) + (if c.group == g then 1 else 0)
  {
    CycleColumnsAppend(cs, c);
    Numbering.CountAppend(CycleGroups(cs), c.group, g);
  }

  lemma FindMembershipAppend(ms: seq<Membership>, m: Membership, g: GroupId, u: UserId)
    requires m.group != g
    ensures FindMembership(ms + [m], g, u) == FindMembership(ms, g, u)
  {
    assert (ms + [m])[..|ms|] == ms;
  }

  lemma SuccessCountAppend(ts: seq<Transaction>, x: Transaction, c: CycleId)
    ensures SuccessCount(ts + [x], c) == SuccessCount(ts, c) + (if x.cycle == c && x.status == TxSuccess then 1 else 0)
  {
    assert (ts + [x])[..|ts|] == ts;
  }
}
