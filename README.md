# Owner-side rental lifecycle

A Dafny model of `OwnerUpdateRentalService`, the service through which a
property owner confirms, denies or cancels a rental of the booking
application. A rental moves between the states PENDING, CONFIRMED,
RESTRAINED, DENIED, CANCELLED and EXPIRED:

- **confirm** (PENDING to CONFIRMED) checks, in order, that the rental
  exists, that the caller owns the property, that the rental is PENDING and
  that no other CONFIRMED rental on the same property overlaps its dates.
  It then restrains every overlapping PENDING rental on that property. A
  rental the mapper reads as EXPIRED is not restrained; it is saved back as
  read, that is as EXPIRED.
- **deny** moves a PENDING or RESTRAINED rental to DENIED.
- **cancel** moves a CONFIRMED rental to CANCELLED and revives every
  overlapping RESTRAINED rental on that property to PENDING.

The model has three modules:

- `Rentals` (`rentals.dfy`) holds the data model. It has the stored
  rental, the table `Store` (rental id to rental), and the mapper's
  projection of a stored rental to its domain view (`EffectiveState`,
  `ToDomain`). It also holds the repository queries the service relies on
  and the safety invariant `NoOverlappingConfirmed`.
- `RentalLifecycle` (`lifecycle.dfy`) defines `Confirm`, `Deny` and
  `Cancel` as functions of the table before the call. Each returns the
  response and the table after the call. The lemmas state what the service
  promises: the failure order and no change on failure, the exact success
  conditions, the cascades, the invariant kept by every operation and by
  any sequence of requests, and the confirm-then-cancel round trip.
- `OwnerUpdateRental` (`service.dfy`) is the class
  `OwnerUpdateRentalService`. It holds the table as a field and updates it
  in place. Confirm's cascade is a loop over the conflicting ids. Cancel's
  revival is a loop that updates the found rentals in memory, and they are
  then saved together. Each method's `ensures` equates the response and the
  new table with the matching `RentalLifecycle` function, and states that
  the safety invariant is kept.

Assumptions about collaborators whose code is not part of this model:

- `JpaRentalRepository.findRentalsByOverlapAndState` is modelled by
  `FindRentalsByOverlapAndState`. It returns the rentals on the given
  property whose stored state is the given one, whose id differs from the
  excluded id, and whose dates overlap under closed-interval intersection
  (`start1 <= end2 && start2 <= end1`, so a shared day counts).
- `RentalMapper.toDomain(r, clock)` is modelled as a projection. It changes
  only the state, which becomes EXPIRED when the mapper's expiry rule says
  so. The rule is a parameter (`ExpiryRule`, the class constant `expired`),
  so every result holds for any rule. All state guards read this projected
  state, as the source does. The repository query filters on the stored
  state.
- `RentalMapper.toEntity` keeps every field of the domain object. Saving a
  domain object therefore writes the stored rental with the new state. In
  particular the restrain cascade saves every PENDING conflict (line 140),
  so one the mapper reads as EXPIRED is stored as EXPIRED.
- `PreconditionChecker.prepareIfTheDateIsInThePast` fails with
  `InvalidDate` exactly when the cancellation date is before today. It runs
  after the ownership check and before the state check.
- `java.time.Clock` becomes an explicit `today` parameter (a day number).
  The presenter becomes the returned `Response`. The exception classes
  become the `Error` datatype.
- A rental's id is its key in the table, so `Rental` has no id field.

## Model

| member | source | states |
|---|---|---|
| `Rentals.EffectiveState` | rental/src/main/java/br/ifsp/application/rental/update/owner/OwnerUpdateRentalService.java:134-136 | the state a rental shows after mapping is EXPIRED whenever the expiry rule holds, and its stored state otherwise |
| `Rentals.ToDomain` | rental/src/main/java/br/ifsp/application/rental/update/owner/OwnerUpdateRentalService.java:157 | the domain view differs from the stored rental in its state only, and that state is the effective one |
| `Rentals.FindRentalsByOverlapAndState` | rental/src/main/java/br/ifsp/application/rental/update/owner/OwnerUpdateRentalService.java:43-49 | the query returns exactly the ids in the table, other than the excluded id, of rentals on the given property in the given stored state whose dates overlap the given range |
| `Rentals.GetRental` | rental/src/main/java/br/ifsp/application/rental/update/owner/OwnerUpdateRentalService.java:154-158 | a rental is found exactly when its id is in the table; what is found is that rental with its state replaced by the effective (mapped) state |
| `Rentals.FindRestrainedConflictingRentals` | rental/src/main/java/br/ifsp/application/rental/update/owner/OwnerUpdateRentalService.java:144-152 | the found ids are exactly those of the query for stored RESTRAINED rentals on the target's property overlapping its dates, other than the target; each found rental is the stored one with its effective (mapped) state |
| `RentalLifecycle.Restrain` | rental/src/main/java/br/ifsp/application/rental/update/owner/OwnerUpdateRentalService.java:123-141 | the restrain cascade keeps the table's ids; each PENDING rental other than the confirmed one, on its property and overlapping its dates, becomes RESTRAINED, or EXPIRED when the expiry rule holds for it; every other rental is unchanged |
| `RentalLifecycle.Revive` | rental/src/main/java/br/ifsp/application/rental/update/owner/OwnerUpdateRentalService.java:108-115 | saving the revived rentals keeps the table's ids; exactly the found rentals are replaced, set to PENDING |
| `RentalLifecycle.ConfirmGuards` | rental/src/main/java/br/ifsp/application/rental/update/owner/OwnerUpdateRentalService.java:30-53 | confirm fails with NotFound, then Forbidden, then IllegalTransition naming the effective state, then Conflict when an overlapping CONFIRMED sibling exists; every failure leaves the table unchanged |
| `RentalLifecycle.ConfirmSucceedsIff` | rental/src/main/java/br/ifsp/application/rental/update/owner/OwnerUpdateRentalService.java:32-57 | confirm succeeds if and only if the rental exists, the caller owns it, its effective state is PENDING and no overlapping CONFIRMED sibling exists |
| `RentalLifecycle.ConfirmSuccess` | rental/src/main/java/br/ifsp/application/rental/update/owner/OwnerUpdateRentalService.java:55-141 | on success the response carries the caller and the renter, the target becomes CONFIRMED, exactly the non-expired PENDING overlapping siblings become RESTRAINED, the expired ones are saved as EXPIRED, and all other rentals are unchanged |
| `RentalLifecycle.ConfirmPreservesNoOverlappingConfirmed` | rental/src/main/java/br/ifsp/application/rental/update/owner/OwnerUpdateRentalService.java:43-57 | if no two overlapping CONFIRMED rentals share a property before confirm, none do after |
| `RentalLifecycle.DenyContract` | rental/src/main/java/br/ifsp/application/rental/update/owner/OwnerUpdateRentalService.java:66-83 | deny succeeds if and only if the rental exists, the caller owns it and its effective state is PENDING or RESTRAINED; success sets only the target to DENIED; the failures come in the order NotFound, Forbidden, IllegalTransition, and none changes the table |
| `RentalLifecycle.DenyPreservesNoOverlappingConfirmed` | rental/src/main/java/br/ifsp/application/rental/update/owner/OwnerUpdateRentalService.java:80-81 | deny keeps the no-overlapping-CONFIRMED invariant |
| `RentalLifecycle.CancelGuards` | rental/src/main/java/br/ifsp/application/rental/update/owner/OwnerUpdateRentalService.java:90-103 | cancel fails with NotFound, then Forbidden, then InvalidDate for a past cancellation date (none given means today), then IllegalTransition unless the effective state is CONFIRMED; it succeeds exactly when all pass, and failures leave the table unchanged |
| `RentalLifecycle.CancelSuccess` | rental/src/main/java/br/ifsp/application/rental/update/owner/OwnerUpdateRentalService.java:105-117 | on success the response carries the caller and the renter, the target becomes CANCELLED, every overlapping RESTRAINED sibling becomes PENDING whether or not it has expired, and all other rentals, including non-overlapping RESTRAINED ones, are unchanged |
| `RentalLifecycle.CancelPreservesNoOverlappingConfirmed` | rental/src/main/java/br/ifsp/application/rental/update/owner/OwnerUpdateRentalService.java:105-115 | cancel keeps the no-overlapping-CONFIRMED invariant |
| `RentalLifecycle.ConfirmThenCancel` | rental/src/main/java/br/ifsp/application/rental/update/owner/OwnerUpdateRentalService.java:30-121 | confirming a rental and then cancelling it restores every other rental, except that overlapping siblings that were already RESTRAINED become PENDING and overlapping PENDING siblings past their time stay EXPIRED |
| `RentalLifecycle.ConfirmThenCancelExample` | rental/src/main/java/br/ifsp/application/rental/update/owner/OwnerUpdateRentalService.java:30-121 | with A (days 5 to 15) and B (days 10 to 20) PENDING on one property, confirming A restrains B, and cancelling A makes B PENDING again |
| `RentalLifecycle.CancelRevivesBesideConfirmed` | rental/src/main/java/br/ifsp/application/rental/update/owner/OwnerUpdateRentalService.java:105-108 | revival ignores other CONFIRMED rentals, so a revived rental can overlap one; confirming it then fails with Conflict |
| `RentalLifecycle.RunPreservesNoOverlappingConfirmed` | rental/src/main/java/br/ifsp/application/rental/update/owner/OwnerUpdateRentalService.java:43-57 | after any sequence of confirm, deny and cancel requests, no two overlapping CONFIRMED rentals share a property |
| `OwnerUpdateRental.OwnerUpdateRentalService.constructor` | rental/src/main/java/br/ifsp/application/rental/update/owner/OwnerUpdateRentalService.java:24-27 | the service starts on the given table and expiry rule |
| `OwnerUpdateRental.OwnerUpdateRentalService.ConfirmRental` | rental/src/main/java/br/ifsp/application/rental/update/owner/OwnerUpdateRentalService.java:30-63 | the response and the new table are those of `Confirm` on the old table, and the safety invariant is kept |
| `OwnerUpdateRental.OwnerUpdateRentalService.RestrainPendingRentalsInConflict` | rental/src/main/java/br/ifsp/application/rental/update/owner/OwnerUpdateRentalService.java:123-142 | the loop over the PENDING conflicts leaves the table equal to `Restrain` of the old table |
| `OwnerUpdateRental.OwnerUpdateRentalService.DenyRental` | rental/src/main/java/br/ifsp/application/rental/update/owner/OwnerUpdateRentalService.java:66-87 | the response and the new table are those of `Deny` on the old table, and the safety invariant is kept |
| `OwnerUpdateRental.OwnerUpdateRentalService.CancelRental` | rental/src/main/java/br/ifsp/application/rental/update/owner/OwnerUpdateRentalService.java:90-121 | the response and the new table are those of `Cancel` on the old table, and the safety invariant is kept |

## Left out

- Persistence: the repository, the JPA entities and the mapping between entity and domain object are replaced by the map `Store`. The repository query and the expiry rule are the assumptions stated above.
- `PreconditionChecker` is not part of this model. Its date check is the assumption stated above.
- Presenter callbacks, exception classes and their messages are collapsed into `Response` and `Error`. A failure raised by the repository itself (a caught runtime exception) is not modelled.
- Concurrency, locking and atomicity are not modelled: the source has no transactions or locks, and it saves the target and then each sibling separately. The model applies each operation as one step, so there is no `Busy` error.
- The rental table is a value-typed map field. The model does not capture aliasing between domain objects and stored entities.
- `AddressTest.java` tests an address value object that no operation here uses, so nothing in it is modelled.
