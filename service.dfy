/** The owner-side service: confirm, deny and cancel a rental, updating the
    rental table in place. Each method is proved to do exactly what the
    corresponding function of RentalLifecycle describes, and to keep the
    table free of overlapping CONFIRMED rentals. */
module OwnerUpdateRental {
  import opened Rentals
  import opened RentalLifecycle

  class OwnerUpdateRentalService {
    /** The rental table behind the repository, keyed by rental id. */
    var rentals: Store
    /** The mapper's expiry rule, applied whenever a stored rental is read. */
    const expired: ExpiryRule

    constructor (rentals: Store, expired: ExpiryRule)
      ensures this.rentals == rentals && this.expired == expired
    {
      this.rentals := rentals;
      this.expired := expired;
    }

    method ConfirmRental(ownerId: UserId, rentalId: RentalId, today: Day) returns (response: Response)
      modifies this
      ensures Outcome(response, rentals) == Confirm(old(rentals), ownerId, rentalId, today, expired)
      ensures NoOverlappingConfirmed(old(rentals)) ==> NoOverlappingConfirmed(rentals)
    {
      var found := GetRental(rentals, rentalId, today, expired);
      if found.None? {
        return Failure(NotFound);
      }
      var rental := found.value;
      if rental.ownerId != ownerId {
        return Failure(Forbidden);
      }
      if rental.state != Pending {
        return Failure(IllegalTransition(rental.state));
      }
      var conflicts := FindRentalsByOverlapAndState(rentals, rental.propertyId, Confirmed, rental.start, rental.end, rentalId);
      if conflicts != {} {
        return Failure(Conflict);
      }
      rental := rental.(state := Confirmed);
      rentals := rentals[rentalId := rental];
      RestrainPendingRentalsInConflict(rentalId, rental, today);
      response := Success(ownerId, rental.renterId);
      if NoOverlappingConfirmed(old(rentals)) {
        ConfirmPreservesNoOverlappingConfirmed(old(rentals), ownerId, rentalId, today, expired);
      }
    }

    /** Restrains, one at a time, the PENDING rentals that overlap the rental
        `confirmedId` (now `confirmed`) on its property; one the mapper reads
        as EXPIRED is saved back as read. */
    method RestrainPendingRentalsInConflict(confirmedId: RentalId, confirmed: Rental, today: Day)
      modifies this
      ensures rentals == Restrain(old(rentals), confirmedId, confirmed, today, expired)
    {
      var pendingConflicts := FindRentalsByOverlapAndState(
        rentals, confirmed.propertyId, Pending, confirmed.start, confirmed.end, confirmedId);
      ghost var before := rentals;
      ghost var todo0 := pendingConflicts;
      while pendingConflicts != {}
        invariant pendingConflicts <= todo0
        invariant rentals.Keys == before.Keys
        invariant forall k | k in before ::
          rentals[k] == if k in todo0 - pendingConflicts then RestrainOne(before[k], today, expired) else before[k]
        decreases pendingConflicts
      {
        var id :| id in pendingConflicts;
        var rental := ToDomain(rentals[id], today, expired);
        if rental.state != Expired {
          rental := rental.(state := Restrained);
        }
        rentals := rentals[id := rental];
        pendingConflicts := pendingConflicts - {id};
      }
      ghost var expected := Restrain(before, confirmedId, confirmed, today, expired);
      assert forall k | k in rentals :: rentals[k] == expected[k];
    }

    method DenyRental(ownerId: UserId, rentalId: RentalId, today: Day) returns (response: Response)
      modifies this
      ensures Outcome(response, rentals) == Deny(old(rentals), ownerId, rentalId, today, expired)
      ensures NoOverlappingConfirmed(old(rentals)) ==> NoOverlappingConfirmed(rentals)
    {
      var found := GetRental(rentals, rentalId, today, expired);
      if found.None? {
        return Failure(NotFound);
      }
      var rental := found.value;
      if rental.ownerId != ownerId {
        return Failure(Forbidden);
      }
      if rental.state !in {Pending, Restrained} {
        return Failure(IllegalTransition(rental.state));
      }
      rental := rental.(state := Denied);
      rentals := rentals[rentalId := rental];
      response := Success(ownerId, rental.renterId);
      if NoOverlappingConfirmed(old(rentals)) {
        DenyPreservesNoOverlappingConfirmed(old(rentals), ownerId, rentalId, today, expired);
      }
    }

    /** Cancels a CONFIRMED rental and brings every RESTRAINED rental that
        overlaps it on its property back to PENDING; the revived rentals are
        updated in memory first and then saved together. */
    method CancelRental(ownerId: UserId, rentalId: RentalId, cancelDate: Option<Day>, today: Day) returns (response: Response)
      modifies this
      ensures Outcome(response, rentals) == Cancel(old(rentals), ownerId, rentalId, cancelDate, today, expired)
      ensures NoOverlappingConfirmed(old(rentals)) ==> NoOverlappingConfirmed(rentals)
    {
      var found := GetRental(rentals, rentalId, today, expired);
      if found.None? {
        return Failure(NotFound);
      }
      var rental := found.value;
      if rental.ownerId != ownerId {
        return Failure(Forbidden);
      }
      var date := CancelDate(cancelDate, today);
      if date < today {
        return Failure(InvalidDate);
      }
      if rental.state != Confirmed {
        return Failure(IllegalTransition(rental.state));
      }
      rental := rental.(state := Cancelled);

      var restrainedConflicts := FindRestrainedConflictingRentals(rentals, rentalId, rental, today, expired);
      var toRevive := restrainedConflicts.Keys;
      var revived: map<RentalId, Rental> := map[];
      while toRevive != {}
        invariant toRevive <= restrainedConflicts.Keys
        invariant revived.Keys == restrainedConflicts.Keys - toRevive
        invariant forall k | k in revived :: revived[k] == restrainedConflicts[k].(state := Pending)
        decreases toRevive
      {
        var id :| id in toRevive;
        revived := revived[id := restrainedConflicts[id].(state := Pending)];
        toRevive := toRevive - {id};
      }

      assert revived == map k | k in restrainedConflicts :: restrainedConflicts[k].(state := Pending);
      rentals := rentals[rentalId := rental];
      rentals := rentals + revived;
      assert rentals == Revive(old(rentals)[rentalId := rental], restrainedConflicts);
      response := Success(ownerId, rental.renterId);
      if NoOverlappingConfirmed(old(rentals)) {
        CancelPreservesNoOverlappingConfirmed(old(rentals), ownerId, rentalId, cancelDate, today, expired);
      }
    }
  }
}
