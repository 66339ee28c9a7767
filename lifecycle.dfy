/** What the owner-side service does to the rental table, as functions of the
    table before the call: confirm, deny and cancel, with the restrain and
    revive cascades. The methods of OwnerUpdateRentalService are proved equal
    to these functions; the lemmas below state what the service promises. */
module RentalLifecycle {
  import opened Rentals

  datatype Error =
    | NotFound                                // no rental under that id
    | Forbidden                               // the caller does not own the property
    | IllegalTransition(current: RentalState) // the operation is not allowed from this state
    | Conflict                                // an overlapping CONFIRMED rental exists
    | InvalidDate                             // the cancellation date is in the past

  /** What the presenter receives. */
  datatype Response = Success(ownerId: UserId, renterId: UserId) | Failure(error: Error)

  datatype Outcome = Outcome(response: Response, store: Store)

  /** Some CONFIRMED rental other than `id`, on its property, overlaps its dates. */
  predicate HasConfirmedConflict(store: Store, id: RentalId)
    requires id in store
  {
    exists k | k in store :: Sibling(store, id, k) && store[k].state == Confirmed
  }

  /** One step of the restrain cascade: the rental is read through the mapper,
      set to RESTRAINED unless it reads as EXPIRED, and saved back as it was read. */
  function RestrainOne(r: Rental, today: Day, expired: ExpiryRule): Rental {
    var rental := ToDomain(r, today, expired);
    if rental.state != Expired then rental.(state := Restrained) else rental
  }

  /** The restrain cascade after the rental `confirmedId` (now `confirmed`)
      was confirmed: every other PENDING rental overlapping it on its property
      becomes RESTRAINED, except that one the mapper reads as EXPIRED is saved
      back as EXPIRED. No other rental changes. */
  function Restrain(store: Store, confirmedId: RentalId, confirmed: Rental, today: Day, expired: ExpiryRule): (s: Store)
    ensures s.Keys == store.Keys
    ensures forall k | k in store ::
      s[k] == if && k != confirmedId
                 && store[k].propertyId == confirmed.propertyId
                 && store[k].state == Pending
                 && Overlaps(store[k].start, store[k].end, confirmed.start, confirmed.end)
              then store[k].(state := if expired(store[k], today) then Expired else Restrained)
              else store[k]
  {
    var pending := FindRentalsByOverlapAndState(store, confirmed.propertyId, Pending, confirmed.start, confirmed.end, confirmedId);
    map k | k in store :: if k in pending then RestrainOne(store[k], today, expired) else store[k]
  }

  function Confirm(store: Store, ownerId: UserId, id: RentalId, today: Day, expired: ExpiryRule): (out: Outcome) {
    match GetRental(store, id, today, expired)
    case None => Outcome(Failure(NotFound), store)
    case Some(rental) =>
      if rental.ownerId != ownerId then Outcome(Failure(Forbidden), store)
      else if rental.state != Pending then Outcome(Failure(IllegalTransition(rental.state)), store)
      else if FindRentalsByOverlapAndState(store, rental.propertyId, Confirmed, rental.start, rental.end, id) != {}
      then Outcome(Failure(Conflict), store)
      else
        var confirmed := rental.(state := Confirmed);
        Outcome(Success(ownerId, rental.renterId), Restrain(store[id := confirmed], id, confirmed, today, expired))
  }

  function Deny(store: Store, ownerId: UserId, id: RentalId, today: Day, expired: ExpiryRule): (out: Outcome) {
    match GetRental(store, id, today, expired)
    case None => Outcome(Failure(NotFound), store)
    case Some(rental) =>
      if rental.ownerId != ownerId then Outcome(Failure(Forbidden), store)
      else if rental.state !in {Pending, Restrained} then Outcome(Failure(IllegalTransition(rental.state)), store)
      else Outcome(Success(ownerId, rental.renterId), store[id := rental.(state := Denied)])
  }

  /** The revive cascade: the found rentals, set back to PENDING and saved. */
  function Revive(store: Store, found: map<RentalId, Rental>): (s: Store)
    requires found.Keys <= store.Keys
    ensures s.Keys == store.Keys
    ensures forall k | k in store :: s[k] == if k in found then found[k].(state := Pending) else store[k]
  {
    store + map k | k in found :: found[k].(state := Pending)
  }

  /** The effective cancellation date: the given one, or today when none is given. */
  function CancelDate(cancelDate: Option<Day>, today: Day): (date: Day) {
    if cancelDate.Some? then cancelDate.value else today
  }

  function Cancel(store: Store, ownerId: UserId, id: RentalId, cancelDate: Option<Day>, today: Day, expired: ExpiryRule): (out: Outcome) {
    match GetRental(store, id, today, expired)
    case None => Outcome(Failure(NotFound), store)
    case Some(rental) =>
      if rental.ownerId != ownerId then Outcome(Failure(Forbidden), store)
      else if CancelDate(cancelDate, today) < today then Outcome(Failure(InvalidDate), store)
      else if rental.state != Confirmed then Outcome(Failure(IllegalTransition(rental.state)), store)
      else
        var cancelled := rental.(state := Cancelled);
        var restrained := FindRestrainedConflictingRentals(store, id, cancelled, today, expired);
        Outcome(Success(ownerId, rental.renterId), Revive(store[id := cancelled], restrained))
  }

  // ---------------------------------------------------------------------------
  // Confirm

  /** Confirm checks, in order, existence, ownership, the PENDING state and
      the absence of a CONFIRMED overlap; any failure leaves the table as it was. */
  lemma ConfirmGuards(store: Store, ownerId: UserId, id: RentalId, today: Day, expired: ExpiryRule)
    ensures var out := Confirm(store, ownerId, id, today, expired);
      && (out.response.Failure? ==> out.store == store)
      && (id !in store ==> out.response == Failure(NotFound))
      && (id in store && store[id].ownerId != ownerId ==> out.response == Failure(Forbidden))
      && (id in store && store[id].ownerId == ownerId && EffectiveState(store[id], today, expired) != Pending
          ==> out.response == Failure(IllegalTransition(EffectiveState(store[id], today, expired))))
      && (id in store && store[id].ownerId == ownerId && EffectiveState(store[id], today, expired) == Pending
          && HasConfirmedConflict(store, id)
          ==> out.response == Failure(Conflict))
  {
    if id in store && store[id].ownerId == ownerId && EffectiveState(store[id], today, expired) == Pending
       && HasConfirmedConflict(store, id) {
      var k :| k in store && Sibling(store, id, k) && store[k].state == Confirmed;
      assert k in FindRentalsByOverlapAndState(store, store[id].propertyId, Confirmed, store[id].start, store[id].end, id);
    }
  }

  /** Confirm succeeds exactly when every guard passes. */
  lemma ConfirmSucceedsIff(store: Store, ownerId: UserId, id: RentalId, today: Day, expired: ExpiryRule)
    ensures Confirm(store, ownerId, id, today, expired).response.Success?
        <==> (&& id in store && store[id].ownerId == ownerId
              && EffectiveState(store[id], today, expired) == Pending
              && !HasConfirmedConflict(store, id))
  {
    ConfirmGuards(store, ownerId, id, today, expired);
  }

  /** A successful confirm answers with the caller and the renter, makes the
      target CONFIRMED, restrains exactly the non-expired PENDING siblings,
      saves the expired PENDING siblings as EXPIRED and leaves every other
      rental as it was. */
  lemma ConfirmSuccess(store: Store, ownerId: UserId, id: RentalId, today: Day, expired: ExpiryRule)
    requires Confirm(store, ownerId, id, today, expired).response.Success?
    ensures var out := Confirm(store, ownerId, id, today, expired);
      && id in store
      && out.response == Success(ownerId, store[id].renterId)
      && out.store.Keys == store.Keys
      && out.store[id] == store[id].(state := Confirmed)
      && forall k | k in store && k != id ::
           out.store[k] == if Sibling(store, id, k) && store[k].state == Pending
                           then store[k].(state := if expired(store[k], today) then Expired else Restrained)
                           else store[k]
  {
  }

  /** Confirm keeps the safety invariant: its own conflict check rules out an
      overlapping CONFIRMED sibling, and the cascade only writes RESTRAINED
      or EXPIRED. */
  lemma ConfirmPreservesNoOverlappingConfirmed(store: Store, ownerId: UserId, id: RentalId, today: Day, expired: ExpiryRule)
    requires NoOverlappingConfirmed(store)
    ensures NoOverlappingConfirmed(Confirm(store, ownerId, id, today, expired).store)
  {
    var out := Confirm(store, ownerId, id, today, expired);
    if out.response.Success? {
      ConfirmSuccess(store, ownerId, id, today, expired);
      ConfirmSucceedsIff(store, ownerId, id, today, expired);
      var s := out.store;
      forall a, b | a in s && b in s && a != b && s[a].state == Confirmed && s[b].state == Confirmed
                    && s[a].propertyId == s[b].propertyId
        ensures !Overlaps(s[a].start, s[a].end, s[b].start, s[b].end)
      {
        if a == id {
          assert store[b].state == Confirmed;
          assert !Sibling(store, id, b);
        } else if b == id {
          assert store[a].state == Confirmed;
          assert !Sibling(store, id, a);
        } else {
          assert store[a].state == Confirmed && store[b].state == Confirmed;
        }
      }
    }
  }

  // ---------------------------------------------------------------------------
  // Deny

  /** Deny succeeds exactly from PENDING or RESTRAINED; it then sets only the
      target to DENIED. Every failure, in the order not found, not the owner,
      wrong state, leaves the table as it was. */
  lemma DenyContract(store: Store, ownerId: UserId, id: RentalId, today: Day, expired: ExpiryRule)
    ensures var out := Deny(store, ownerId, id, today, expired);
      && (out.response.Success? <==>
            (id in store && store[id].ownerId == ownerId
             && EffectiveState(store[id], today, expired) in {Pending, Restrained}))
      && (out.response.Success? ==>
            out.response == Success(ownerId, store[id].renterId)
            && out.store == store[id := store[id].(state := Denied)])
      && (out.response.Failure? ==> out.store == store)
      && (id !in store ==> out.response == Failure(NotFound))
      && (id in store && store[id].ownerId != ownerId ==> out.response == Failure(Forbidden))
      && (id in store && store[id].ownerId == ownerId
          && EffectiveState(store[id], today, expired) !in {Pending, Restrained}
          ==> out.response == Failure(IllegalTransition(EffectiveState(store[id], today, expired))))
  {
  }

  /** Deny never makes a rental CONFIRMED, so it keeps the safety invariant. */
  lemma DenyPreservesNoOverlappingConfirmed(store: Store, ownerId: UserId, id: RentalId, today: Day, expired: ExpiryRule)
    requires NoOverlappingConfirmed(store)
    ensures NoOverlappingConfirmed(Deny(store, ownerId, id, today, expired).store)
  {
    DenyContract(store, ownerId, id, today, expired);
  }

  // ---------------------------------------------------------------------------
  // Cancel

  /** Cancel checks, in order, existence, ownership, a cancellation date not
      in the past (today when none is given) and the CONFIRMED state; it
      succeeds exactly when all pass, and any failure leaves the table as it was. */
  lemma CancelGuards(store: Store, ownerId: UserId, id: RentalId, cancelDate: Option<Day>, today: Day, expired: ExpiryRule)
    ensures var out := Cancel(store, ownerId, id, cancelDate, today, expired);
      && (out.response.Success? <==>
            (id in store && store[id].ownerId == ownerId
             && !(cancelDate.Some? && cancelDate.value < today)
             && EffectiveState(store[id], today, expired) == Confirmed))
      && (out.response.Failure? ==> out.store == store)
      && (id !in store ==> out.response == Failure(NotFound))
      && (id in store && store[id].ownerId != ownerId ==> out.response == Failure(Forbidden))
      && (id in store && store[id].ownerId == ownerId && cancelDate.Some? && cancelDate.value < today
          ==> out.response == Failure(InvalidDate))
      && (id in store && store[id].ownerId == ownerId && !(cancelDate.Some? && cancelDate.value < today)
          && EffectiveState(store[id], today, expired) != Confirmed
          ==> out.response == Failure(IllegalTransition(EffectiveState(store[id], today, expired))))
  {
  }

  /** A successful cancel answers with the caller and the renter, makes the
      target CANCELLED, returns every overlapping RESTRAINED sibling to
      PENDING whether or not it has expired, and leaves every other rental
      as it was. */
  lemma CancelSuccess(store: Store, ownerId: UserId, id: RentalId, cancelDate: Option<Day>, today: Day, expired: ExpiryRule)
    requires Cancel(store, ownerId, id, cancelDate, today, expired).response.Success?
    ensures var out := Cancel(store, ownerId, id, cancelDate, today, expired);
      && id in store
      && out.response == Success(ownerId, store[id].renterId)
      && out.store.Keys == store.Keys
      && out.store[id] == store[id].(state := Cancelled)
      && forall k | k in store && k != id ::
           out.store[k] == if Sibling(store, id, k) && store[k].state == Restrained
                           then store[k].(state := Pending) else store[k]
  {
  }

  /** Cancel never makes a rental CONFIRMED, so it keeps the safety invariant. */
  lemma CancelPreservesNoOverlappingConfirmed(
    store: Store, ownerId: UserId, id: RentalId, cancelDate: Option<Day>, today: Day, expired: ExpiryRule)
    requires NoOverlappingConfirmed(store)
    ensures NoOverlappingConfirmed(Cancel(store, ownerId, id, cancelDate, today, expired).store)
  {
    var out := Cancel(store, ownerId, id, cancelDate, today, expired);
    if out.response.Success? {
      CancelSuccess(store, ownerId, id, cancelDate, today, expired);
      var s := out.store;
      forall a, b | a in s && b in s && a != b && s[a].state == Confirmed && s[b].state == Confirmed
                    && s[a].propertyId == s[b].propertyId
        ensures !Overlaps(s[a].start, s[a].end, s[b].start, s[b].end)
      {
        assert store[a].state == Confirmed && store[b].state == Confirmed;
      }
    }
  }

  // ---------------------------------------------------------------------------
  // Confirm followed by cancel

  /** Confirming a rental and then cancelling it (with no cancellation date,
      before it expires) leaves every other rental as it was, except that the
      overlapping siblings that were already RESTRAINED come back as PENDING
      and the overlapping PENDING siblings already past their time stay
      saved as EXPIRED. */
  lemma ConfirmThenCancel(store: Store, ownerId: UserId, id: RentalId, today: Day, expired: ExpiryRule)
    requires Confirm(store, ownerId, id, today, expired).response.Success?
    requires id in store && !expired(store[id].(state := Confirmed), today)
    ensures var s1 := Confirm(store, ownerId, id, today, expired).store;
            var out := Cancel(s1, ownerId, id, None, today, expired);
      && out.response == Success(ownerId, store[id].renterId)
      && out.store.Keys == store.Keys
      && out.store[id] == store[id].(state := Cancelled)
      && forall k | k in store && k != id ::
           out.store[k] == if Sibling(store, id, k) && store[k].state == Restrained then store[k].(state := Pending)
                           else if Sibling(store, id, k) && store[k].state == Pending && expired(store[k], today)
                           then store[k].(state := Expired)
                           else store[k]
  {
    ConfirmSuccess(store, ownerId, id, today, expired);
    var s1 := Confirm(store, ownerId, id, today, expired).store;
    CancelGuards(s1, ownerId, id, None, today, expired);
    CancelSuccess(s1, ownerId, id, None, today, expired);
  }

  /** On property 7 of owner 100: A (days 5 to 15) and B (days 10 to 20) are
      PENDING. Confirming A restrains B; cancelling A then brings B back to
      PENDING. */
  lemma ConfirmThenCancelExample(expired: ExpiryRule)
    requires forall r: Rental :: !expired(r, 1)
    ensures var store := map[1 := Rental(7, 100, 201, 5, 15, Pending), 2 := Rental(7, 100, 202, 10, 20, Pending)];
            var confirmed := Confirm(store, 100, 1, 1, expired);
            var cancelled := Cancel(confirmed.store, 100, 1, None, 1, expired);
      && confirmed.response == Success(100, 201)
      && confirmed.store[1].state == Confirmed && confirmed.store[2].state == Restrained
      && cancelled.response == Success(100, 201)
      && cancelled.store[1].state == Cancelled && cancelled.store[2].state == Pending
  {
    var store := map[1 := Rental(7, 100, 201, 5, 15, Pending), 2 := Rental(7, 100, 202, 10, 20, Pending)];
    assert Sibling(store, 1, 2);
    assert !HasConfirmedConflict(store, 1);
    ConfirmSucceedsIff(store, 100, 1, 1, expired);
    ConfirmSuccess(store, 100, 1, 1, expired);
    ConfirmThenCancel(store, 100, 1, 1, expired);
  }

  /** Revival does not look for other CONFIRMED rentals: here B (days 15 to
      35) was restrained by A (days 10 to 20) or C (days 30 to 40), both
      CONFIRMED; cancelling A makes B PENDING again although C still overlaps
      it. The safety invariant is not at risk: confirming B now fails with
      Conflict. */
  lemma CancelRevivesBesideConfirmed(expired: ExpiryRule)
    requires forall r: Rental :: !expired(r, 1)
    ensures var store := map[1 := Rental(7, 100, 201, 10, 20, Confirmed),
                             2 := Rental(7, 100, 202, 30, 40, Confirmed),
                             3 := Rental(7, 100, 203, 15, 35, Restrained)];
            var cancelled := Cancel(store, 100, 1, None, 1, expired);
      && NoOverlappingConfirmed(store)
      && cancelled.response.Success?
      && cancelled.store[3].state == Pending
      && cancelled.store[2].state == Confirmed
      && Overlaps(cancelled.store[3].start, cancelled.store[3].end, cancelled.store[2].start, cancelled.store[2].end)
      && Confirm(cancelled.store, 100, 3, 1, expired).response == Failure(Conflict)
  {
    var store := map[1 := Rental(7, 100, 201, 10, 20, Confirmed),
                     2 := Rental(7, 100, 202, 30, 40, Confirmed),
                     3 := Rental(7, 100, 203, 15, 35, Restrained)];
    CancelGuards(store, 100, 1, None, 1, expired);
    CancelSuccess(store, 100, 1, None, 1, expired);
    assert Sibling(store, 1, 3) && !Sibling(store, 1, 2);
    var s := Cancel(store, 100, 1, None, 1, expired).store;
    assert Sibling(s, 3, 2) && s[2].state == Confirmed;
    ConfirmGuards(s, 100, 3, 1, expired);
  }

  // ---------------------------------------------------------------------------
  // Any sequence of owner requests

  datatype Request =
    | ConfirmRequest(ownerId: UserId, rentalId: RentalId, today: Day)
    | DenyRequest(ownerId: UserId, rentalId: RentalId, today: Day)
    | CancelRequest(ownerId: UserId, rentalId: RentalId, cancelDate: Option<Day>, today: Day)

  function Handle(store: Store, request: Request, expired: ExpiryRule): (out: Outcome) {
    match request
    case ConfirmRequest(ownerId, id, today) => Confirm(store, ownerId, id, today, expired)
    case DenyRequest(ownerId, id, today) => Deny(store, ownerId, id, today, expired)
    case CancelRequest(ownerId, id, cancelDate, today) => Cancel(store, ownerId, id, cancelDate, today, expired)
  }

  /** The table after the service has handled `requests` one after another. */
  function Run(store: Store, requests: seq<Request>, expired: ExpiryRule): (final: Store)
    decreases |requests|
  {
    if requests == [] then store
    else Run(Handle(store, requests[0], expired).store, requests[1..], expired)
  }

  /** However the owners' requests follow one another, no two CONFIRMED
      rentals on one property ever overlap. */
  lemma {:induction false} RunPreservesNoOverlappingConfirmed(store: Store, requests: seq<Request>, expired: ExpiryRule)
    requires NoOverlappingConfirmed(store)
    ensures NoOverlappingConfirmed(Run(store, requests, expired))
    decreases |requests|
  {
    if requests != [] {
      var next := Handle(store, requests[0], expired).store;
      match requests[0] {
        case ConfirmRequest(ownerId, id, today) =>
          ConfirmPreservesNoOverlappingConfirmed(store, ownerId, id, today, expired);
        case DenyRequest(ownerId, id, today) =>
          DenyPreservesNoOverlappingConfirmed(store, ownerId, id, today, expired);
        case CancelRequest(ownerId, id, cancelDate, today) =>
          CancelPreservesNoOverlappingConfirmed(store, ownerId, id, cancelDate, today, expired);
      }
      RunPreservesNoOverlappingConfirmed(next, requests[1..], expired);
    }
  }
}
