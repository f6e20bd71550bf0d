# Equb cycle engine, modelled in Dafny

An equb is a rotating savings group. The owner creates a group, and members join it.
Each cycle, every member pays the group's contribution, and the whole pot goes to one member.
The payout goes round the members in the order they joined.

`EqubGroupsService` (in `src/equb-groups/equb-groups.service.ts`) runs this over four tables:
groups, memberships, cycles and transactions. It has five operations:

- `createGroup` saves a pending group. It then saves the owner's membership with payout order 1.
- `joinGroup` gives a new member of a pending group the payout order "member count + 1".
- `makePayment` saves the caller's contribution to the group's active cycle as PENDING.
  It then rewrites the status to SUCCESS or FAILED from the payment gateway's answer.
- `startGroup` opens cycle 1, paid to the holder of payout order 1, and marks the group active.
- `processNextCycle` runs once every member has paid. It completes the active cycle and opens
  the next one, paid to the holder of payout order `(current % N) + 1`.

`CreateGroupDto` (in `src/equb-groups/dto/create-group.dto.ts`) states which request bodies
reach `createGroup`.

## Layout

- `entities.dfy` (module `Entities`): the records, their status enumerations and the error kinds.
  NotFound, Forbidden and Conflict each carry the reason the service gives.
  `Unhandled` is the TypeError raised when a cycle has no recipient to log.
- `numbering.dfy` (module `Numbering`): per-group sequential numbering, "count of the group's rows so far + 1".
  Payout orders and cycle numbers both follow it.
- `repository.dfy` (module `Repository`): the four tables as a `Store` value.
  It also holds the `findOne`/`count` lookups the service makes.
  A row's id is its position in its table.
- `round_robin.dfy` (module `RoundRobin`): the next payout order and the rotation it produces.
- `create_group_dto.dfy` (module `GroupDto`): validation of a create-group body and its decoding into the typed request.
- `engine.dfy` (module `EqubEngine`): each operation as a function from a store to its result and the next store.
  The checks run in the service's order.
  The module also defines `EngineInvariant`, what holds of every reachable store.
- `invariant_proofs.dfy` (module `EngineInvariantProofs`): the empty store satisfies the invariant and every operation keeps it.
- `properties.dfy` (module `EngineProperties`): what the operations promise, proved over the engine functions.
- `scenarios.dfy` (module `Scenarios`): one three-member group, taken step by step through start, payments and a rollover.
- `service.dfy` (module `Service`): class `EqubGroupsService`.
  The tables are `seq` fields, and the operations are methods that make the reads and saves in the service's order.
  Each method is proved to return the result, and leave the store, that the engine function gives.
  Each of the five operations also keeps the invariant.

## Model

| member | source | states |
|---|---|---|
| Numbering.Count | src/equb-groups/equb-groups.service.ts:85-87 | A group's row count is zero exactly when the group has no row, and never exceeds the table size |
| Numbering.NumberedAppend | src/equb-groups/equb-groups.service.ts:84-97 | Adding a row numbered "rows of its group so far + 1" keeps every group numbered 1, 2, ... in insertion order |
| Numbering.NumberedIncreasing | src/equb-groups/equb-groups.service.ts:84-97 | In a numbered table, two rows of one group carry strictly increasing numbers, so no number repeats within a group |
| Numbering.NumberedCovers | src/equb-groups/equb-groups.service.ts:84-97 | In a numbered table, every number from 1 to the group's row count is held by some row of the group |
| Repository.FindMembership | src/equb-groups/equb-groups.service.ts:73-78 | The membership lookup by (group, user) returns a matching row, or none exactly when no row matches |
| Repository.FindByPayoutOrder | src/equb-groups/equb-groups.service.ts:209-212 | The lookup by (group, payout order) returns a matching row, or none exactly when no row matches |
| Repository.FindActiveCycle | src/equb-groups/equb-groups.service.ts:129-131 | The lookup of a group's active cycle returns an active cycle of the group, or none exactly when there is none |
| Repository.FindSuccess | src/equb-groups/equb-groups.service.ts:140-146 | The lookup of a SUCCESS transaction for (membership, cycle) returns one, or none exactly when there is none |
| Repository.SuccessCount | src/equb-groups/equb-groups.service.ts:261-266 | The count of a cycle's SUCCESS transactions is zero exactly when the cycle has none |
| RoundRobin.NextPayoutOrder | src/equb-groups/equb-groups.service.ts:294-295 | The next payout order lies in 1..N; it is current + 1 below N and wraps from N back to 1 |
| RoundRobin.RecipientOrder | src/equb-groups/equb-groups.service.ts:294-295 | The payout order of cycle number n lies in 1..N and is n itself during the first round |
| RoundRobin.RecipientOrderNext | src/equb-groups/equb-groups.service.ts:294-304 | Rolling from cycle n to n + 1 moves the recipient's order by exactly one NextPayoutOrder step |
| RoundRobin.RotationIsRecipientOrder | src/equb-groups/equb-groups.service.ts:294-304 | k rollovers from order 1 reach the payout order of cycle k + 1 |
| RoundRobin.RotationPeriodic | src/equb-groups/equb-groups.service.ts:294-304 | The rotation repeats every N rollovers: 1, 2, ..., N, 1, 2, ... |
| RoundRobin.RotationFirstRound | src/equb-groups/equb-groups.service.ts:294-304 | During the first round, the k-th rollover reaches order k + 1 |
| GroupDto.NameValid | src/equb-groups/dto/create-group.dto.ts:18-21 | A name passes only as a string, and a string passes exactly when it has 1 to 100 characters |
| GroupDto.DescriptionValid | src/equb-groups/dto/create-group.dto.ts:28-31 | A missing or null description passes; a number or other non-string fails; a string passes exactly when it has at most 500 characters |
| GroupDto.AmountValid | src/equb-groups/dto/create-group.dto.ts:37-39 | An amount passes only as a number, and a number passes exactly when it is above 0 |
| GroupDto.FrequencyValid | src/equb-groups/dto/create-group.dto.ts:46-50 | A frequency passes exactly when it is the string 'weekly', 'bi-weekly' or 'monthly' |
| GroupDto.IsValid | src/equb-groups/dto/create-group.dto.ts:13-51 | A passing body has a string name, a numeric amount, a string frequency, and a description that is a string or absent/null |
| GroupDto.FieldBoundaries | src/equb-groups/dto/create-group.dto.ts:18-50 | 100- and 500-character strings pass and 101 and 501 fail, an empty name fails, amounts 0 and -5 and the string "100" fail, "Weekly" and "" fail as frequencies, and a null description passes |
| GroupDto.ParseFrequency | src/equb-groups/dto/create-group.dto.ts:46-50 | A frequency is accepted exactly when it is 'weekly', 'bi-weekly' or 'monthly' |
| GroupDto.FrequencyName | src/equb-groups/entities/equb-group.entity.ts:14-18 | Each frequency's enum value parses back to that frequency |
| GroupDto.Decode | src/equb-groups/dto/create-group.dto.ts:13-51 | A body decodes exactly when its name is a non-empty string of at most 100 characters, its description is absent/null or a string of at most 500, its amount is a number above 0 and its frequency one of the enum values; the result satisfies those bounds |
| GroupDto.Encode | src/equb-groups/dto/create-group.dto.ts:13-51 | A typed request within the bounds encodes to a valid body that decodes back to it, and only such requests encode to valid bodies |
| GroupDto.DecodeThenEncode | src/equb-groups/dto/create-group.dto.ts:28-31 | A valid body without a null description is exactly the encoding of what it decodes to |
| EqubEngine.CreateGroup | src/equb-groups/equb-groups.service.ts:35-58 | Adds exactly one group at the next id, pending and owned by the caller, and exactly one membership, the owner's in that group with payout order 1; the existing groups and memberships are kept, cycles and transactions are untouched, and the tables stay well-formed |
| EqubEngine.JoinGroup | src/equb-groups/equb-groups.service.ts:60-103 | Checks in order group missing (NotFound), not pending (Conflict), already a member (Conflict), and a refusal changes nothing; it succeeds exactly when all pass, adding one membership whose payout order is the new member count, with nothing else changed |
| EqubEngine.Settle | src/equb-groups/equb-groups.service.ts:171-174 | The settled status is never PENDING, and it is SUCCESS exactly when the gateway reports success |
| EqubEngine.MakePayment | src/equb-groups/equb-groups.service.ts:105-182 | Checks in order not a member (Forbidden), group not active (Conflict), no active cycle (NotFound), already paid for this cycle (Conflict), each as an exact condition, and a refusal changes nothing; on success it adds exactly one transaction, for the caller's membership and the active cycle, of the group's contribution, SUCCESS exactly when the gateway succeeded and never PENDING |
| EqubEngine.StartGroup | src/equb-groups/equb-groups.service.ts:188-238 | Checks in order group missing (NotFound), caller not owner (Forbidden), not pending (Conflict), fewer than 2 members (Conflict), no holder of order 1 (Conflict), each as an exact condition, and a refusal changes nothing; on success it adds cycle 1 active and paid to the order-1 member, and marks the group active |
| EqubEngine.CompleteCycle | src/equb-groups/equb-groups.service.ts:274-276 | Completing a cycle changes only its status, to completed; every other cycle and the other three tables stay as they were |
| EqubEngine.OpenNextCycle | src/equb-groups/equb-groups.service.ts:274-315 | Past the payment check the active cycle is completed whatever follows. The TypeError comes exactly when the cycle has no recipient; the missing-membership refusal comes exactly when the recipient has no membership in the group; otherwise a cycle numbered one higher opens, active, for the same group, paid to the holder of the next payout order, and with no recipient exactly when no member holds that order. The other tables are unchanged |
| EqubEngine.ProcessNextCycle | src/equb-groups/equb-groups.service.ts:240-316 | Checks in order group missing (NotFound), caller not owner (Forbidden), no active cycle (NotFound), fewer successes than members (Conflict reporting members minus successes), all of which change nothing; no other refusal is possible before the payment check passes, and past it the outcome is OpenNextCycle's |
| EngineInvariantProofs.EmptyStoreInvariant | src/equb-groups/equb-groups.service.ts:18-33 | The empty tables satisfy the engine invariant |
| EngineInvariantProofs.FindMembershipExact | src/equb-groups/equb-groups.service.ts:72-82 | With one membership per user and group, the lookup by (group, user) finds exactly that membership |
| EngineInvariantProofs.FindByPayoutOrderExact | src/equb-groups/equb-groups.service.ts:296-299 | With numbered payout orders, the lookup by (group, order) finds exactly the membership holding it |
| EngineInvariantProofs.PayoutOrderHeld | src/equb-groups/equb-groups.service.ts:84-97 | With numbered payout orders, every order from 1 to the member count is held by some member |
| EngineInvariantProofs.ActiveCyclesUnique | src/equb-groups/equb-groups.service.ts:250-253 | With numbered cycles whose active one is the latest, a group has at most one active cycle |
| EngineInvariantProofs.OnlyActiveCycle | src/equb-groups/equb-groups.service.ts:250-253 | With numbered cycles whose active one is the latest, an active cycle is the only active cycle of its group |
| EngineInvariantProofs.CreateGroupPreservesInvariant | src/equb-groups/equb-groups.service.ts:35-58 | createGroup keeps the engine invariant |
| EngineInvariantProofs.JoinGroupKeepsMembers | src/equb-groups/equb-groups.service.ts:72-97 | A join keeps payout orders numbered, one membership per user and group, and the owner on order 1 |
| EngineInvariantProofs.JoinGroupPreservesInvariant | src/equb-groups/equb-groups.service.ts:60-103 | joinGroup keeps the engine invariant |
| EngineInvariantProofs.MakePaymentKeepsTransactions | src/equb-groups/equb-groups.service.ts:139-176 | A payment keeps every transaction settled, on its own group's cycle and for the contribution, and at most one SUCCESS per (membership, cycle) |
| EngineInvariantProofs.MakePaymentPreservesInvariant | src/equb-groups/equb-groups.service.ts:105-182 | makePayment keeps the engine invariant |
| EngineInvariantProofs.StartGroupKeepsCycles | src/equb-groups/equb-groups.service.ts:218-232 | Starting keeps cycles numbered with the active one latest, and a started group has an active cycle and two members |
| EngineInvariantProofs.StartGroupPreservesInvariant | src/equb-groups/equb-groups.service.ts:188-238 | startGroup keeps the engine invariant |
| EngineInvariantProofs.RolloverLookups | src/equb-groups/equb-groups.service.ts:282-299 | On a reachable store, the active cycle has a recipient whose membership exists, and the next payout order is held by a member |
| EngineInvariantProofs.RolloverCycleOrder | src/equb-groups/equb-groups.service.ts:274-310 | Completing the active cycle and appending the next-numbered one keeps cycles numbered with the active one latest, and adds one to that group's cycle count only |
| EngineInvariantProofs.RolloverKeepsCycles | src/equb-groups/equb-groups.service.ts:274-310 | A rollover keeps cycles numbered, the active one latest and every started group with an active cycle |
| EngineInvariantProofs.ProcessNextCyclePreservesInvariant | src/equb-groups/equb-groups.service.ts:240-316 | processNextCycle keeps the engine invariant |
| EngineProperties.CreateGroupEnrollsOwner | src/equb-groups/equb-groups.service.ts:35-58 | A new group is pending, carries the request's fields, and has exactly one member, its owner, on payout order 1; nothing else changes |
| EngineProperties.PayoutOrdersExact | src/equb-groups/equb-groups.service.ts:84-97 | A group of N members holds exactly the payout orders 1..N, no two members sharing one |
| EngineProperties.JoinGroupOnce | src/equb-groups/equb-groups.service.ts:72-82 | After a successful join, the same user joining again is refused as already a member |
| EngineProperties.RepeatedPayment | src/equb-groups/equb-groups.service.ts:139-181 | After a payment, paying again for the same cycle is refused exactly when the first succeeded; a failed payment may be retried |
| EngineProperties.StartGroupOutcome | src/equb-groups/equb-groups.service.ts:194-232 | On a reachable store, an owner starting a pending group is refused only for fewer than 2 members; otherwise cycle 1 opens, active, paid to the owner, as the group's only active cycle |
| EngineProperties.StartGroupFindsFirstRecipient | src/equb-groups/equb-groups.service.ts:208-216 | On a reachable store, the missing-order-1 refusal never occurs |
| EngineProperties.MembersCounted | src/equb-groups/equb-groups.service.ts:258-260 | The member count is the number of the group's memberships |
| EngineProperties.PayersCounted | src/equb-groups/equb-groups.service.ts:261-266 | With one SUCCESS per (membership, cycle), the success count is the number of members who paid |
| EngineProperties.PaidAtMostMembers | src/equb-groups/equb-groups.service.ts:258-268 | A cycle's success count never exceeds its group's member count, so the `<` check means "not everyone paid" |
| EngineProperties.UnpaidCheck | src/equb-groups/equb-groups.service.ts:257-272 | The check "successes < members" fails exactly when every member of the cycle's group holds a SUCCESS for it, and otherwise members minus successes is the number of members without one |
| EngineProperties.RolloverOutcome | src/equb-groups/equb-groups.service.ts:257-315 | On a reachable store, an owner's rollover with an active cycle succeeds exactly when the successes reach the member count, and is otherwise refused as unpaid by members minus successes |
| EngineProperties.RolloverNeedsEveryMember | src/equb-groups/equb-groups.service.ts:257-272 | On a reachable store, an owner's rollover succeeds exactly when every member holds a SUCCESS for the active cycle; otherwise it reports the number of members who have not paid |
| EngineProperties.RolloverFailureChangesNothing | src/equb-groups/equb-groups.service.ts:274-292 | On a reachable store, a refused rollover leaves the store as it was: the two refusals raised after the completion is saved cannot occur |
| EngineProperties.RolloverRotates | src/equb-groups/equb-groups.service.ts:274-315 | A rollover completes the active cycle and opens the next-numbered one as the group's only active cycle, paid to the member holding the order after the previous recipient's |
| EngineProperties.CycleRecipientFollowsRotation | src/equb-groups/equb-groups.service.ts:294-309 | Cycle n pays the member reached after n - 1 rollovers from order 1, so the first N cycles pay orders 1..N |
| EngineProperties.SameRecipientIffSameRound | src/equb-groups/equb-groups.service.ts:294-309 | Two cycles of a group pay the same user exactly when their numbers differ by a multiple of N |
| Scenarios.JoinSteps | src/equb-groups/equb-groups.service.ts:84-97 | Users 2 and 3 joining the owner's group receive payout orders 2 and 3 |
| Scenarios.StartSteps | src/equb-groups/equb-groups.service.ts:188-232 | A non-owner may not start the group; the owner's start opens cycle 1 paid to the owner, after which joining is refused |
| Scenarios.FirstPayments | src/equb-groups/equb-groups.service.ts:105-181 | Two members pay 100 each for cycle 1, and a second payment by the first is refused |
| Scenarios.RolloverRefused | src/equb-groups/equb-groups.service.ts:257-272 | With 2 of 3 members paid, the rollover is refused with one member unpaid |
| Scenarios.RolloverDone | src/equb-groups/equb-groups.service.ts:274-315 | With all 3 paid, cycle 1 is completed and cycle 2 opens, paid to user 2 |
| Service.EqubGroupsService.constructor | src/equb-groups/equb-groups.service.ts:20-33 | The service starts with empty tables, which satisfy the invariant |
| Service.EqubGroupsService.CreateGroup | src/equb-groups/equb-groups.service.ts:35-58 | Saving the group, then the owner's membership, leaves the store and id that EqubEngine.CreateGroup gives, and keeps the invariant |
| Service.EqubGroupsService.JoinGroup | src/equb-groups/equb-groups.service.ts:60-103 | The method's checks and save give EqubEngine.JoinGroup's result and store, and keep the invariant |
| Service.EqubGroupsService.MakePayment | src/equb-groups/equb-groups.service.ts:105-182 | Saving the PENDING transaction and then rewriting its status gives EqubEngine.MakePayment's result and store, and keeps the invariant |
| Service.EqubGroupsService.StartGroup | src/equb-groups/equb-groups.service.ts:188-238 | Saving cycle 1 and then the active group gives EqubEngine.StartGroup's result and store, and keeps the invariant |
| Service.EqubGroupsService.ProcessNextCycle | src/equb-groups/equb-groups.service.ts:240-272 | The method's lookups, checks and refusals give EqubEngine.ProcessNextCycle's result and store, and keep the invariant |
| Service.EqubGroupsService.OpenNextCycle | src/equb-groups/equb-groups.service.ts:274-315 | Saving the completion before the recipient lookups, then the new cycle, gives EqubEngine.OpenNextCycle's result and store |

## Behaviour worth knowing

- No operation commits atomically. Each record is saved on its own.
  - `startGroup` saves the cycle and the group separately.
  - `processNextCycle` saves the completed cycle before the recipient lookups that can throw.
  Each method makes its saves in the code's order.
  `EqubEngine.OpenNextCycle` keeps the completion on the two late refusals.
  `EngineProperties.RolloverFailureChangesNothing` proves that those two refusals cannot occur on a store the operations can reach.
- The rollover refuses when successes < members.
  `EngineProperties.PaidAtMostMembers` proves that successes never exceed members, so this is the same as successes != members.
- A missing next recipient. If no member holds the next payout order, the code opens the cycle with no recipient (`?.user`); it does not refuse.
  The model does the same: the recipient is an `Option`, and `EqubEngine.OpenNextCycle` states when it is empty.
  `EngineInvariantProofs.RolloverLookups` proves that this does not happen on a reachable store.

## Left out

- Dates: a cycle's start and end dates come from the wall clock and are not modelled. Frequency does not affect them.
- Amounts are exact rationals (`real`). The column's `decimal(10,2)` rounding is not modelled, and neither is the failed save of an amount of 10^8 or more; the model accepts any positive amount.
- The payment gateway's internals (a timer and a random draw) are not modelled. Its answer is the `gatewaySuccess` argument.
  A gateway call that throws, leaving the transaction PENDING, is not modelled.
- Concurrency: two requests interleaving between a check and a save are not modelled, e.g. two joins reading the same member count. Operations run one at a time.
- Database ids are UUIDs; here a row's id is its position. Users are plain numbers, so a user that does not exist is not modelled.
- Lookups return the newest matching row. On a reachable store at most one row matches each lookup, so the choice does not matter there.
- `createGroup` copies the request into the group with a spread. The global `ValidationPipe` does not strip unknown properties, so extra body fields could reach the group record. Only the four declared fields are modelled.
- String lengths are `|s|`, the number of characters. The length check of the validation library may count some characters differently; that is not modelled.
- Logging, the controllers, authentication, the Nest modules and the remaining services are not part of this model.
