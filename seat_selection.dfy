/** The client-side seat selection state of hooks/use-seat-selection.ts (the
    10-second hold variant), and the pieces it shares with the 5-minute
    variant: the status map that shows stale holds as free seats, the toggle
    of a seat in the selection, and the price totals.

    The hook's state is a `SeatSelection` object; each handler is a method
    on it. What the server and the seat query answer is passed in: `None`
    stands for a call that threw. The client clock `now` (milliseconds) is a
    parameter, read once per handler. */
module SeatSelectionHook {
  import opened Common
  import opened Store
  import opened SeatCalculations

  const ToggleWhileReservedMsg := "Please complete your current reservation or wait for it to expire"
  const SeatNotSelectableMsg := "This seat is not available for selection"
  const EmptySelectionMsg := "Please select at least one seat"
  const ReserveFailedMsg := "Failed to reserve seats"
  const ReserveErrorMsg := "An error occurred while reserving seats"
  const NothingToPurchaseMsg := "No reserved tickets to purchase"
  const PurchaseFailedMsg := "Failed to purchase tickets"
  const PurchaseErrorMsg := "An error occurred while purchasing tickets"
  const NothingToCancelMsg := "No reservation to cancel"
  const CancelFailedMsg := "Failed to cancel reservation"
  const CancelErrorMsg := "An error occurred while canceling reservation"
  const LoadFailedMsg := "Failed to load seats"

  /** `result.error || fallback`: an absent or empty message gives the fallback. */
  function ErrorOr(error: Option<string>, fallback: string): string {
    if error.Some? && error.value != "" then error.value else fallback
  }

  // ---------------------------------------------------------------------------
  // buildSeatStatusMap
  // ---------------------------------------------------------------------------

  /** The status a seat is shown with: a reserved seat whose hold is older than
      the hold window shows as available; every other seat shows its stored status. */
  function ShownStatus(t: Ticket, now: int, holdMs: nat): TicketStatus {
    if t.status == Reserved && t.reservedAt.Some? && t.reservedAt.value < now - holdMs then Available
    else t.status
  }

  /** Only a stale hold is shown differently, and only as available: a sold
      seat is always shown sold, an available one available, a fresh hold or a
      hold without a time reserved. */
  lemma ShownStatusCases(t: Ticket, now: int, holdMs: nat)
    ensures ShownStatus(t, now, holdMs) != t.status <==>
              t.status == Reserved && t.reservedAt.Some? && t.reservedAt.value < now - holdMs
    ensures ShownStatus(t, now, holdMs) != t.status ==> ShownStatus(t, now, holdMs) == Available
    ensures t.status == Sold ==> ShownStatus(t, now, holdMs) == Sold
  {
  }

  /** The map the loop builds: one entry per seat id, a later row for the same
      id overwriting an earlier one. */
  function StatusMap(seats: seq<Row>, now: int, holdMs: nat): (m: map<Id, TicketStatus>)
    ensures forall id :: id in m <==> exists k :: 0 <= k < |seats| && seats[k].id == id
  {
    if seats == [] then map[]
    else
      var last := seats[|seats| - 1];
      var m := StatusMap(seats[..|seats| - 1], now, holdMs);
      assert forall k :: 0 <= k < |seats| - 1 ==> seats[..|seats| - 1][k] == seats[k];
      m[last.id := ShownStatus(last.ticket, now, holdMs)]
  }

  /** Each seat's entry is its shown status, unless a later row repeats its id
      (the rows of a section query never do). */
  lemma {:induction false} StatusMapLookup(seats: seq<Row>, now: int, holdMs: nat, k: nat)
    requires k < |seats|
    requires forall j :: k < j < |seats| ==> seats[j].id != seats[k].id
    ensures StatusMap(seats, now, holdMs)[seats[k].id] == ShownStatus(seats[k].ticket, now, holdMs)
  {
    if k < |seats| - 1 {
      var init := seats[..|seats| - 1];
      assert init[k] == seats[k];
      forall j | k < j < |init| ensures init[j].id != init[k].id {
        assert init[j] == seats[j];
      }
      StatusMapLookup(init, now, holdMs, k);
    }
  }

  /** `buildSeatStatusMap(seats)` with its hold window as `holdMs`. */
  method BuildSeatStatusMap(seats: seq<Row>, now: int, holdMs: nat) returns (m: map<Id, TicketStatus>)
    ensures m == StatusMap(seats, now, holdMs)
  {
    m := map[];
    for i := 0 to |seats|
      invariant m == StatusMap(seats[..i], now, holdMs)
    {
      assert seats[..i + 1][..i] == seats[..i];
      m := m[seats[i].id := ShownStatus(seats[i].ticket, now, holdMs)];
    }
    assert seats[..|seats|] == seats;
  }

  // ---------------------------------------------------------------------------
  // The selection toggle
  // ---------------------------------------------------------------------------

  /** `prev.includes(id) ? prev.filter(x => x !== id) : [...prev, id]` */
  function Toggle(prev: seq<Id>, id: Id): (r: seq<Id>)
    ensures id in r <==> id !in prev
    ensures forall x :: x != id ==> (x in r <==> x in prev)
  {
    if id in prev then RemoveAll(prev, id) else prev + [id]
  }

  /** A selection without repeats keeps none after a toggle. */
  lemma ToggleKeepsNoDuplicates(prev: seq<Id>, id: Id)
    requires NoDuplicates(prev)
    ensures NoDuplicates(Toggle(prev, id))
  {
  }

  /** Toggling a seat twice gives back the same seats; when the seat was not
      selected, the very same sequence. A selected seat toggled twice moves to
      the end. */
  lemma ToggleTwice(prev: seq<Id>, id: Id)
    requires NoDuplicates(prev)
    ensures multiset(Toggle(Toggle(prev, id), id)) == multiset(prev)
    ensures id !in prev ==> Toggle(Toggle(prev, id), id) == prev
  {
    if id in prev {
      RemoveAllMultiset(prev, id);
    } else {
      RemoveAllAbsent(prev, id);
    }
  }

  // ---------------------------------------------------------------------------
  // Totals
  // ---------------------------------------------------------------------------

  /** `totalPrice` / `reservedTotalPrice` for `count` seats (cents). */
  function SeatsTotal(section: Option<SectionWithAvailability>, count: nat): int {
    if section.Some? then count * section.value.section.price else 0
  }

  /** `reservedTotalPrice`, with its extra test that some ticket is reserved. */
  function ReservedTotal(section: Option<SectionWithAvailability>, reserved: seq<Id>): int {
    if section.Some? && |reserved| > 0 then |reserved| * section.value.section.price else 0
  }

  /** Selecting a seat adds one to the number of selected seats; deselecting
      one takes one off. */
  lemma ToggleLength(prev: seq<Id>, id: Id)
    requires NoDuplicates(prev)
    ensures |Toggle(prev, id)| == if id in prev then |prev| - 1 else |prev| + 1
  {
    if id in prev {
      RemoveAllMultiset(prev, id);
      assert |multiset(RemoveAll(prev, id))| + 1 == |multiset(prev)|;
    }
  }

  /** Selecting a seat adds one seat's price to the total; deselecting one
      takes it off. */
  lemma ToggleChangesTotal(section: Option<SectionWithAvailability>, prev: seq<Id>, id: Id)
    requires NoDuplicates(prev)
    ensures SeatsTotal(section, |Toggle(prev, id)|)
         == SeatsTotal(section, |prev|) + (if id in prev then -1 else 1) * SeatsTotal(section, 1)
  {
    ToggleLength(prev, id);
    if section.Some? {
      var price := section.value.section.price;
      if id in prev {
        assert (|prev| - 1) * price == |prev| * price - price;
      } else {
        assert (|prev| + 1) * price == |prev| * price + price;
      }
    }
  }

  // ---------------------------------------------------------------------------
  // Partial reservations
  // ---------------------------------------------------------------------------

  /** `{ requested, reserved, failedSeats }` */
  datatype PartialReservation = PartialReservation(requested: nat, reserved: nat, failedSeats: seq<string>)

  /** `allSeats.find(seat => seat.id === id)?.seat_number` */
  function SeatNumberOf(allSeats: seq<Row>, id: Id): (r: Option<string>)
    ensures r.Some? <==> exists k :: 0 <= k < |allSeats| && allSeats[k].id == id
    ensures r.Some? ==> exists k :: 0 <= k < |allSeats| && allSeats[k].id == id
                                    && allSeats[k].ticket.seatNumber == r.value
  {
    if allSeats == [] then None
    else if allSeats[0].id == id then Some(allSeats[0].ticket.seatNumber)
    else
      var r := SeatNumberOf(allSeats[1..], id);
      assert forall k :: 0 < k < |allSeats| ==> allSeats[1..][k - 1] == allSeats[k];
      r
  }

  /** The seat numbers of the requested ids the server did not return, in
      request order; ids missing from the loaded seats are skipped. */
  function FailedSeatNumbers(requested: seq<Id>, reserved: seq<Id>, allSeats: seq<Row>): (r: seq<string>)
    ensures |r| <= |requested|
    ensures forall n :: n in r ==> exists id :: id in requested && id !in reserved && SeatNumberOf(allSeats, id) == Some(n)
    ensures forall id :: id in requested && id !in reserved && SeatNumberOf(allSeats, id).Some? ==>
              SeatNumberOf(allSeats, id).value in r
  {
    if requested == [] then []
    else
      var init := requested[..|requested| - 1];
      var id := requested[|requested| - 1];
      assert requested == init + [id];
      var rest := FailedSeatNumbers(init, reserved, allSeats);
      var n := SeatNumberOf(allSeats, id);
      if id !in reserved && n.Some? then rest + [n.value] else rest
  }

  /** No failed seat is reported when every requested seat was reserved. */
  lemma {:induction false} NoFailuresWhenAllReserved(requested: seq<Id>, reserved: seq<Id>, allSeats: seq<Row>)
    requires forall id :: id in requested ==> id in reserved
    ensures FailedSeatNumbers(requested, reserved, allSeats) == []
  {
    if requested != [] {
      var init := requested[..|requested| - 1];
      assert forall id :: id in init ==> id in requested;
      NoFailuresWhenAllReserved(init, reserved, allSeats);
    }
  }

  /** The hook's bookkeeping after a successful reserve: none when every
      requested seat came back, otherwise the counts and the failed seat numbers. */
  function PartialOf(requested: seq<Id>, reserved: seq<Id>, allSeats: seq<Row>): Option<PartialReservation> {
    if |reserved| < |requested| then
      Some(PartialReservation(|requested|, |reserved|, FailedSeatNumbers(requested, reserved, allSeats)))
    else None
  }

  // ---------------------------------------------------------------------------
  // The hook
  // ---------------------------------------------------------------------------

  class SeatSelection {
    /** The signed-in user, and the hold window (10 000 ms in this hook). */
    const userId: Id
    const holdMs: nat

    var selectedSection: Option<SectionWithAvailability>
    var allSeats: seq<Row>
    var seatStatusMap: map<Id, TicketStatus>
    var selectedSeats: seq<Id>
    var error: Option<string>
    var reservedTicketIds: seq<Id>
    var reservationExpiresAt: Option<int>
    var partialReservation: Option<PartialReservation>

    /** A seat is selected at most once. */
    ghost predicate Valid()
      reads this
    {
      NoDuplicates(selectedSeats)
    }

    /** The initial state of the hook. */
    constructor (userId: Id, holdMs: nat)
      ensures Valid() && this.userId == userId && this.holdMs == holdMs
      ensures selectedSection.None? && allSeats == [] && seatStatusMap == map[] && selectedSeats == []
      ensures error.None? && reservedTicketIds == [] && reservationExpiresAt.None? && partialReservation.None?
    {
      this.userId, this.holdMs := userId, holdMs;
      selectedSection, allSeats, seatStatusMap, selectedSeats := None, [], map[], [];
      error, reservedTicketIds, reservationExpiresAt, partialReservation := None, [], None, None;
    }

    /** `totalPrice` */
    function TotalPrice(): int
      reads this
    {
      SeatsTotal(selectedSection, |selectedSeats|)
    }

    /** `reservedTotalPrice` */
    function ReservedTotalPrice(): int
      reads this
    {
      ReservedTotal(selectedSection, reservedTicketIds)
    }

    /** `loadAllSeatsAsync`: clears the error, then stores the fetched seats
        and their status map, or reports that loading failed. */
    method LoadAllSeats(fetched: Option<seq<Row>>, now: int)
      modifies this
      ensures fetched.Some? ==> error.None? && allSeats == fetched.value
                                && seatStatusMap == StatusMap(fetched.value, now, holdMs)
      ensures fetched.None? ==> error == Some(LoadFailedMsg) && allSeats == old(allSeats)
                                && seatStatusMap == old(seatStatusMap)
      ensures selectedSection == old(selectedSection) && selectedSeats == old(selectedSeats)
      ensures reservedTicketIds == old(reservedTicketIds) && reservationExpiresAt == old(reservationExpiresAt)
      ensures partialReservation == old(partialReservation)
    {
      error := None;
      if fetched.Some? {
        allSeats := fetched.value;
        seatStatusMap := BuildSeatStatusMap(fetched.value, now, holdMs);
      } else {
        error := Some(LoadFailedMsg);
      }
    }

    /** `setSelectedSection` and the effect that loads the section's seats. */
    method SelectSection(section: Option<SectionWithAvailability>, fetched: Option<seq<Row>>, now: int)
      requires Valid()
      modifies this
      ensures Valid() && selectedSection == section && selectedSeats == old(selectedSeats)
      ensures section.Some? && fetched.Some? ==>
                error.None? && allSeats == fetched.value && seatStatusMap == StatusMap(fetched.value, now, holdMs)
      ensures section.Some? && fetched.None? ==>
                error == Some(LoadFailedMsg) && allSeats == old(allSeats) && seatStatusMap == old(seatStatusMap)
      ensures section.None? ==>
                error == old(error) && allSeats == old(allSeats) && seatStatusMap == old(seatStatusMap)
      ensures reservedTicketIds == old(reservedTicketIds) && reservationExpiresAt == old(reservationExpiresAt)
      ensures partialReservation == old(partialReservation)
    {
      selectedSection := section;
      if section.Some? {
        LoadAllSeats(fetched, now);
      }
    }

    /** `handleSeatToggle(seatId)`: refused while a reservation is held or
        when the seat is not shown as available (or is not on the map);
        otherwise the seat is toggled and nothing else changes. */
    method HandleSeatToggle(seatId: Id)
      requires Valid()
      modifies this
      ensures Valid()
      ensures |old(reservedTicketIds)| > 0 ==>
                error == Some(ToggleWhileReservedMsg) && selectedSeats == old(selectedSeats)
                && TotalPrice() == old(TotalPrice())
      ensures |old(reservedTicketIds)| == 0 && (seatId !in old(seatStatusMap) || old(seatStatusMap)[seatId] != Available) ==>
                error == Some(SeatNotSelectableMsg) && selectedSeats == old(selectedSeats)
                && TotalPrice() == old(TotalPrice())
      ensures |old(reservedTicketIds)| == 0 && seatId in old(seatStatusMap) && old(seatStatusMap)[seatId] == Available ==>
                && error == old(error) && selectedSeats == Toggle(old(selectedSeats), seatId)
                && TotalPrice() == old(TotalPrice())
                     + (if seatId in old(selectedSeats) then -1 else 1) * SeatsTotal(selectedSection, 1)
      ensures selectedSection == old(selectedSection) && allSeats == old(allSeats) && seatStatusMap == old(seatStatusMap)
      ensures reservedTicketIds == old(reservedTicketIds) && reservationExpiresAt == old(reservationExpiresAt)
      ensures partialReservation == old(partialReservation)
    {
      if |reservedTicketIds| > 0 {
        error := Some(ToggleWhileReservedMsg);
        return;
      }
      if seatId !in seatStatusMap || seatStatusMap[seatId] != Available {
        error := Some(SeatNotSelectableMsg);
        return;
      }
      ToggleKeepsNoDuplicates(selectedSeats, seatId);
      ToggleChangesTotal(selectedSection, selectedSeats, seatId);
      selectedSeats := Toggle(selectedSeats, seatId);
    }

    /** `handleReserve()`. `request` is what is sent to `reserveTickets` (none
        for an empty selection), `result` its answer, `fetched` the seats the
        refresh loads when a section is selected. On success the returned ids
        become the reservation, expiring `holdMs` from now, the selection is
        cleared and a partial reservation is recorded iff fewer seats came
        back than were requested; `timerStarted` says the expiry countdown is
        scheduled. */
    method HandleReserve(result: Option<ApiResponse<seq<Id>>>, fetched: Option<seq<Row>>, now: int)
      returns (request: Option<seq<Id>>, timerStarted: bool)
      requires Valid()
      modifies this
      ensures Valid()
      ensures |old(selectedSeats)| == 0 ==>
                && request.None? && !timerStarted && error == Some(EmptySelectionMsg)
                && selectedSeats == old(selectedSeats) && allSeats == old(allSeats)
                && seatStatusMap == old(seatStatusMap) && partialReservation == old(partialReservation)
                && reservedTicketIds == old(reservedTicketIds) && reservationExpiresAt == old(reservationExpiresAt)
      ensures |old(selectedSeats)| > 0 ==> request == Some(old(selectedSeats))
      ensures |old(selectedSeats)| > 0 && !(result.Some? && result.value.success && result.value.data.Some?) ==>
                && !timerStarted && partialReservation.None?
                && error == Some(if result.None? then ReserveErrorMsg else ErrorOr(result.value.error, ReserveFailedMsg))
                && selectedSeats == old(selectedSeats) && allSeats == old(allSeats) && seatStatusMap == old(seatStatusMap)
                && reservedTicketIds == old(reservedTicketIds) && reservationExpiresAt == old(reservationExpiresAt)
      ensures |old(selectedSeats)| > 0 && result.Some? && result.value.success && result.value.data.Some? ==>
                && timerStarted && selectedSeats == [] && TotalPrice() == 0
                && ReservedTotalPrice() == SeatsTotal(selectedSection, |result.value.data.value|)
                && reservedTicketIds == result.value.data.value
                && reservationExpiresAt == Some(now + holdMs)
                && partialReservation == PartialOf(old(selectedSeats), result.value.data.value, old(allSeats))
                && (selectedSection.Some? && fetched.Some? ==>
                      error.None? && allSeats == fetched.value && seatStatusMap == StatusMap(fetched.value, now, holdMs))
                && (selectedSection.Some? && fetched.None? ==>
                      error == Some(LoadFailedMsg) && allSeats == old(allSeats) && seatStatusMap == old(seatStatusMap))
                && (selectedSection.None? ==>
                      error.None? && allSeats == old(allSeats) && seatStatusMap == old(seatStatusMap))
      ensures selectedSection == old(selectedSection)
    {
      if |selectedSeats| == 0 {
        error := Some(EmptySelectionMsg);
        return None, false;
      }
      var requested := selectedSeats;
      request := Some(requested);
      timerStarted := false;
      error := None;
      partialReservation := None;
      if result.None? {
        error := Some(ReserveErrorMsg);
        return;
      }
      var r := result.value;
      if r.success && r.data.Some? {
        var reservedIds := r.data.value;
        reservedTicketIds := reservedIds;
        reservationExpiresAt := Some(now + holdMs);
        if |reservedIds| < |requested| {
          var failed := FailedSeatNumbers(requested, reservedIds, allSeats);
          partialReservation := Some(PartialReservation(|requested|, |reservedIds|, failed));
          selectedSeats := [];
        } else {
          selectedSeats := [];
          partialReservation := None;
        }
        timerStarted := true;
        if selectedSection.Some? {
          LoadAllSeats(fetched, now);
        }
      } else {
        error := Some(ErrorOr(r.error, ReserveFailedMsg));
      }
    }

    /** The expiry countdown firing: the reservation and its bookkeeping are
        dropped and the section's seats reloaded. */
    method OnReservationExpired(fetched: Option<seq<Row>>, now: int)
      requires Valid()
      modifies this
      ensures Valid() && reservedTicketIds == [] && reservationExpiresAt.None? && partialReservation.None?
      ensures selectedSection == old(selectedSection) && selectedSeats == old(selectedSeats)
      ensures selectedSection.Some? && fetched.Some? ==>
                error.None? && allSeats == fetched.value && seatStatusMap == StatusMap(fetched.value, now, holdMs)
      ensures !(selectedSection.Some? && fetched.Some?) ==> allSeats == old(allSeats) && seatStatusMap == old(seatStatusMap)
      ensures selectedSection.Some? && fetched.None? ==> error == Some(LoadFailedMsg)
      ensures selectedSection.None? ==> error == old(error)
    {
      reservedTicketIds, reservationExpiresAt, partialReservation := [], None, None;
      if selectedSection.Some? {
        LoadAllSeats(fetched, now);
      }
    }

    /** `handlePurchase()`: nothing is sent without reserved tickets. A
        successful purchase navigates to the new order (`navigateTo`) and
        leaves the state as it was; a refused one reports the server's error. */
    method HandlePurchase(result: Option<ApiResponse<Id>>)
      returns (request: Option<seq<Id>>, navigateTo: Option<Id>)
      requires Valid()
      modifies this
      ensures Valid()
      ensures |old(reservedTicketIds)| == 0 ==>
                request.None? && navigateTo.None? && error == Some(NothingToPurchaseMsg)
      ensures |old(reservedTicketIds)| > 0 ==> request == Some(old(reservedTicketIds))
      ensures |old(reservedTicketIds)| > 0 && result.Some? && result.value.success && result.value.data.Some? ==>
                navigateTo == result.value.data && error.None?
      ensures |old(reservedTicketIds)| > 0 && !(result.Some? && result.value.success && result.value.data.Some?) ==>
                && navigateTo.None?
                && error == Some(if result.None? then PurchaseErrorMsg else ErrorOr(result.value.error, PurchaseFailedMsg))
      ensures selectedSection == old(selectedSection) && allSeats == old(allSeats) && seatStatusMap == old(seatStatusMap)
      ensures selectedSeats == old(selectedSeats) && reservedTicketIds == old(reservedTicketIds)
      ensures reservationExpiresAt == old(reservationExpiresAt) && partialReservation == old(partialReservation)
    {
      if |reservedTicketIds| == 0 {
        error := Some(NothingToPurchaseMsg);
        return None, None;
      }
      request, navigateTo := Some(reservedTicketIds), None;
      error := None;
      if result.None? {
        error := Some(PurchaseErrorMsg);
      } else if result.value.success && result.value.data.Some? {
        navigateTo := result.value.data;
      } else {
        error := Some(ErrorOr(result.value.error, PurchaseFailedMsg));
      }
    }

    /** `handleCancelReservation()`: nothing is sent without reserved tickets.
        A successful cancel drops the reservation, its expiry and the partial
        bookkeeping and reloads the seats; otherwise the reservation stays. */
    method HandleCancelReservation(result: Option<ApiResponse<()>>, fetched: Option<seq<Row>>, now: int)
      returns (request: Option<seq<Id>>)
      requires Valid()
      modifies this
      ensures Valid()
      ensures |old(reservedTicketIds)| == 0 ==>
                && request.None? && error == Some(NothingToCancelMsg)
                && reservedTicketIds == old(reservedTicketIds) && reservationExpiresAt == old(reservationExpiresAt)
                && partialReservation == old(partialReservation)
                && allSeats == old(allSeats) && seatStatusMap == old(seatStatusMap)
      ensures |old(reservedTicketIds)| > 0 ==> request == Some(old(reservedTicketIds))
      ensures |old(reservedTicketIds)| > 0 && !(result.Some? && result.value.success) ==>
                && error == Some(if result.None? then CancelErrorMsg else ErrorOr(result.value.error, CancelFailedMsg))
                && reservedTicketIds == old(reservedTicketIds) && reservationExpiresAt == old(reservationExpiresAt)
                && partialReservation == old(partialReservation)
                && allSeats == old(allSeats) && seatStatusMap == old(seatStatusMap)
      ensures |old(reservedTicketIds)| > 0 && result.Some? && result.value.success ==>
                && reservedTicketIds == [] && reservationExpiresAt.None? && partialReservation.None?
                && (selectedSection.Some? && fetched.Some? ==>
                      error.None? && allSeats == fetched.value && seatStatusMap == StatusMap(fetched.value, now, holdMs))
                && (selectedSection.Some? && fetched.None? ==>
                      error == Some(LoadFailedMsg) && allSeats == old(allSeats) && seatStatusMap == old(seatStatusMap))
                && (selectedSection.None? ==>
                      error.None? && allSeats == old(allSeats) && seatStatusMap == old(seatStatusMap))
      ensures selectedSection == old(selectedSection) && selectedSeats == old(selectedSeats)
    {
      if |reservedTicketIds| == 0 {
        error := Some(NothingToCancelMsg);
        return None;
      }
      request := Some(reservedTicketIds);
      error := None;
      if result.None? {
        error := Some(CancelErrorMsg);
      } else if result.value.success {
        reservedTicketIds, reservationExpiresAt, partialReservation := [], None, None;
        if selectedSection.Some? {
          LoadAllSeats(fetched, now);
        }
      } else {
        error := Some(ErrorOr(result.value.error, CancelFailedMsg));
      }
    }
  }
}
