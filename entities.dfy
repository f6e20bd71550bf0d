/** Records and enumerations of the equb (rotating-savings) engine: groups,
    memberships, cycles and transactions, and the error kinds the engine's
    operations fail with.  Every table row is identified by its position in
    its table, so all ids are natural numbers.  Users are external identities
    and are identified by a natural number as well. */
module Entities {

  type UserId = nat
  type GroupId = nat
  type MembershipId = nat
  type CycleId = nat
  type TransactionId = nat

  datatype Option<+T> = None | Some(value: T)

  datatype EqubFrequency = Weekly | BiWeekly | Monthly

  /** Lifecycle of a group; a new group is `Pending`. */
  datatype EqubStatus = Pending | Active | Completed

  datatype CycleStatus = CycleActive | CycleCompleted

  datatype TransactionStatus = TxPending | TxSuccess | TxFailed

  /** Amounts are exact rationals: the database column is a decimal, not a float. */
  type Amount = real

  datatype Group = Group(
    name: string,
    description: Option<string>,
    contributionAmount: Amount,
    frequency: EqubFrequency,
    status: EqubStatus,
    owner: UserId)

  datatype Membership = Membership(group: GroupId, user: UserId, payoutOrder: nat)

  /** The start and end dates of a cycle are wall-clock values and are not modelled.
      A cycle opened by a rollover whose recipient lookup found nothing has no
      recipient, hence the `Option`. */
  datatype Cycle = Cycle(
    group: GroupId,
    cycleNumber: nat,
    status: CycleStatus,
    payoutRecipient: Option<UserId>)

  datatype Transaction = Transaction(
    membership: MembershipId,
    cycle: CycleId,
    amount: Amount,
    status: TransactionStatus)

  datatype NotFoundReason = GroupNotFound | NoActiveCycle

  datatype ForbiddenReason = NotAMember | NotOwner

  datatype ConflictReason =
    | NotAcceptingMembers
    | AlreadyMember
    | GroupNotActive
    | AlreadyPaid
    | AlreadyStarted
    | TooFewMembers
    | NoFirstRecipient
    | Unpaid(unpaidMembers: nat)
    | RecipientMembershipMissing

  /** The exception kinds the service throws.  `Unhandled` is the TypeError a
      rollover raises when the active cycle has no payout recipient to log. */
  datatype Error =
    | NotFound(notFound: NotFoundReason)
    | Forbidden(forbidden: ForbiddenReason)
    | Conflict(conflict: ConflictReason)
    | Unhandled

  datatype Result<+T> = Ok(value: T) | Err(error: Error)
}
