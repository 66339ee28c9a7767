/** The rental records the owner-side service works on: the stored record and
    its states, the projection of a stored record to the domain view (where a
    rental past its time reads as EXPIRED), the repository queries the service
    relies on, and the safety invariant of the booking table. */
module Rentals {

  type RentalId = int
  type PropertyId = int
  type UserId = int
  /** A calendar date as a day number; the service works on whole days. */
  type Day = int

  datatype Option<T> = None | Some(value: T)

  datatype RentalState = Pending | Confirmed | Restrained | Denied | Cancelled | Expired

  /** A stored rental. Its id is its key in the Store; ownerId is the owner of
      the rented property, as reached through the property. */
  datatype Rental = Rental(
    propertyId: PropertyId,
    ownerId: UserId,
    renterId: UserId,
    start: Day,
    end: Day,
    state: RentalState)

  /** The rental table behind the repository, keyed by rental id. */
  type Store = map<RentalId, Rental>

  /** The mapper's rule for whether a stored rental reads as EXPIRED on a
      given day. The rule itself belongs to the mapper, so every result below
      holds for any rule. */
  type ExpiryRule = (Rental, Day) -> bool

  /** Closed-interval intersection: a shared boundary day counts. */
  predicate Overlaps(start1: Day, end1: Day, start2: Day, end2: Day) {
    start1 <= end2 && start2 <= end1
  }

  /** The state a stored rental shows once projected to the domain view. */
  function EffectiveState(r: Rental, today: Day, expired: ExpiryRule): (s: RentalState)
    ensures expired(r, today) ==> s == Expired
    ensures !expired(r, today) ==> s == r.state
  {
    if expired(r, today) then Expired else r.state
  }

  /** The domain view of a stored rental: only its state may differ. */
  function ToDomain(r: Rental, today: Day, expired: ExpiryRule): (d: Rental)
    ensures d.(state := r.state) == r
    ensures d.state == EffectiveState(r, today, expired)
  {
    r.(state := EffectiveState(r, today, expired))
  }

  /** The repository query: the ids of the other rentals on `propertyId`
      whose STORED state is `state` and whose dates overlap [start, end]. */
  function FindRentalsByOverlapAndState(
    store: Store, propertyId: PropertyId, state: RentalState,
    start: Day, end: Day, excludeId: RentalId): (ids: set<RentalId>)
    ensures ids <= store.Keys && excludeId !in ids
    ensures forall k | k in store ::
      k in ids <==> (&& k != excludeId
                     && store[k].propertyId == propertyId
                     && store[k].state == state
                     && Overlaps(store[k].start, store[k].end, start, end))
  {
    set k | k in store && k != excludeId
                       && store[k].propertyId == propertyId
                       && store[k].state == state
                       && Overlaps(store[k].start, store[k].end, start, end)
  }

  /** Looks a rental up by id and returns its domain view. */
  function GetRental(store: Store, id: RentalId, today: Day, expired: ExpiryRule): (found: Option<Rental>)
    ensures found.Some? <==> id in store
    ensures found.Some? ==> found.value.(state := store[id].state) == store[id]
    ensures found.Some? ==> found.value.state == EffectiveState(store[id], today, expired)
  {
    if id in store then Some(ToDomain(store[id], today, expired)) else None
  }

  /** The domain views of the RESTRAINED rentals that overlap `rental`, the
      rental stored under `id`, on its property. */
  function FindRestrainedConflictingRentals(
    store: Store, id: RentalId, rental: Rental, today: Day, expired: ExpiryRule): (found: map<RentalId, Rental>)
    ensures found.Keys == FindRentalsByOverlapAndState(store, rental.propertyId, Restrained, rental.start, rental.end, id)
    ensures forall k | k in found :: found[k].(state := Restrained) == store[k]
    ensures forall k | k in found :: found[k].state == EffectiveState(store[k], today, expired)
  {
    map k | k in FindRentalsByOverlapAndState(store, rental.propertyId, Restrained, rental.start, rental.end, id)
      :: ToDomain(store[k], today, expired)
  }

  /** Another rental on the same property whose dates overlap those of `id`. */
  predicate Sibling(store: Store, id: RentalId, k: RentalId)
    requires id in store && k in store
  {
    && k != id
    && store[k].propertyId == store[id].propertyId
    && Overlaps(store[k].start, store[k].end, store[id].start, store[id].end)
  }

  /** The safety invariant: no two CONFIRMED rentals on one property overlap. */
  ghost predicate NoOverlappingConfirmed(store: Store) {
    forall a, b | a in store && b in store && a != b
                  && store[a].state == Confirmed && store[b].state == Confirmed
                  && store[a].propertyId == store[b].propertyId
      :: !Overlaps(store[a].start, store[a].end, store[b].start, store[b].end)
  }
}
