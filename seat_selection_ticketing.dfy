/** The seat selection state of ticketing-system/hooks/use-seat-selection.ts,
    the 5-minute hold variant. It shares the status map, the toggle and the
    totals with the 10-second hook (the hold window is the object's
    `holdMs`), keeps no expiry time and no partial-reservation record, and
    has no cancel handler. On a partial reservation the server's message is
    set as the error and then cleared by the seat refresh when a section is
    selected, and no expiry is scheduled. */
module TicketingSeatSelectionHook {
  import opened Common
  import opened Store
  import opened SeatCalculations
  import opened SeatSelectionHook

  class SeatSelection {
    /** The signed-in user, and the hold window (300 000 ms in this hook). */
    const userId: Id
    const holdMs: nat

    var selectedSection: Option<SectionWithAvailability>
    var allSeats: seq<Row>
    var seatStatusMap: map<Id, TicketStatus>
    var selectedSeats: seq<Id>
    var error: Option<string>
    var reservedTicketIds: seq<Id>

    /** A seat is selected at most once. */
    ghost predicate Valid()
      reads this
    {
      NoDuplicates(selectedSeats)
    }

    constructor (userId: Id, holdMs: nat)
      ensures Valid() && this.userId == userId && this.holdMs == holdMs
      ensures selectedSection.None? && allSeats == [] && seatStatusMap == map[] && selectedSeats == []
      ensures error.None? && reservedTicketIds == []
    {
      this.userId, this.holdMs := userId, holdMs;
      selectedSection, allSeats, seatStatusMap, selectedSeats := None, [], map[], [];
      error, reservedTicketIds := None, [];
    }

    /** `totalPrice` */
    function TotalPrice(): int
      reads this
    {
      SeatsTotal(selectedSection, |selectedSeats|)
    }

    /** `reservedTotalPrice` */
    function ReservedTotalPrice(): int
      reads this
    {
      ReservedTotal(selectedSection, reservedTicketIds)
    }

    /** `loadAllSeatsAsync`: clears the error, then stores the fetched seats
        and their status map, or reports that loading failed. */
    method LoadAllSeats(fetched: Option<seq<Row>>, now: int)
      modifies this
      ensures fetched.Some? ==> error.None? && allSeats == fetched.value
                                && seatStatusMap == StatusMap(fetched.value, now, holdMs)
      ensures fetched.None? ==> error == Some(LoadFailedMsg) && allSeats == old(allSeats)
                                && seatStatusMap == old(seatStatusMap)
      ensures selectedSection == old(selectedSection) && selectedSeats == old(selectedSeats)
      ensures reservedTicketIds == old(reservedTicketIds)
    {
      error := None;
      if fetched.Some? {
        allSeats := fetched.value;
        seatStatusMap := BuildSeatStatusMap(fetched.value, now, holdMs);
      } else {
        error := Some(LoadFailedMsg);
      }
    }

    /** `setSelectedSection` and the effect that loads the section's seats. */
    method SelectSection(section: Option<SectionWithAvailability>, fetched: Option<seq<Row>>, now: int)
      requires Valid()
      modifies this
      ensures Valid() && selectedSection == section && selectedSeats == old(selectedSeats)
      ensures section.Some? && fetched.Some? ==>
                error.None? && allSeats == fetched.value && seatStatusMap == StatusMap(fetched.value, now, holdMs)
      ensures section.Some? && fetched.None? ==>
                error == Some(LoadFailedMsg) && allSeats == old(allSeats) && seatStatusMap == old(seatStatusMap)
      ensures section.None? ==>
                error == old(error) && allSeats == old(allSeats) && seatStatusMap == old(seatStatusMap)
      ensures reservedTicketIds == old(reservedTicketIds)
    {
      selectedSection := section;
      if section.Some? {
        LoadAllSeats(fetched, now);
      }
    }

    /** `handleSeatToggle(seatId)`, as in the 10-second hook. */
    method HandleSeatToggle(seatId: Id)
      requires Valid()
      modifies this
      ensures Valid()
      ensures |old(reservedTicketIds)| > 0 ==>
                error == Some(ToggleWhileReservedMsg) && selectedSeats == old(selectedSeats)
                && TotalPrice() == old(TotalPrice())
      ensures |old(reservedTicketIds)| == 0 && (seatId !in old(seatStatusMap) || old(seatStatusMap)[seatId] != Available) ==>
                error == Some(SeatNotSelectableMsg) && selectedSeats == old(selectedSeats)
                && TotalPrice() == old(TotalPrice())
      ensures |old(reservedTicketIds)| == 0 && seatId in old(seatStatusMap) && old(seatStatusMap)[seatId] == Available ==>
                && error == old(error) && selectedSeats == Toggle(old(selectedSeats), seatId)
                && TotalPrice() == old(TotalPrice())
                     + (if seatId in old(selectedSeats) then -1 else 1) * SeatsTotal(selectedSection, 1)
      ensures selectedSection == old(selectedSection) && allSeats == old(allSeats) && seatStatusMap == old(seatStatusMap)
      ensures reservedTicketIds == old(reservedTicketIds)
    {
      if |reservedTicketIds| > 0 {
        error := Some(ToggleWhileReservedMsg);
        return;
      }
      if seatId !in seatStatusMap || seatStatusMap[seatId] != Available {
        error := Some(SeatNotSelectableMsg);
        return;
      }
      ToggleKeepsNoDuplicates(selectedSeats, seatId);
      ToggleChangesTotal(selectedSection, selectedSeats, seatId);
      selectedSeats := Toggle(selectedSeats, seatId);
    }

    /** `handleReserve()`. On success the returned ids become the reservation
        and the selection is cleared; the server's partial message is set as
        the error and then, when a section is selected, cleared again by the
        refresh that follows (the refresh starts by clearing the error). The
        expiry countdown (`timerStarted`) is scheduled only when the server
        sent no message. */
    method HandleReserve(result: Option<ApiResponse<seq<Id>>>, fetched: Option<seq<Row>>, now: int)
      returns (request: Option<seq<Id>>, timerStarted: bool)
      requires Valid()
      modifies this
      ensures Valid()
      ensures |old(selectedSeats)| == 0 ==>
                && request.None? && !timerStarted && error == Some(EmptySelectionMsg)
                && selectedSeats == old(selectedSeats) && allSeats == old(allSeats)
                && seatStatusMap == old(seatStatusMap) && reservedTicketIds == old(reservedTicketIds)
      ensures |old(selectedSeats)| > 0 ==> request == Some(old(selectedSeats))
      ensures |old(selectedSeats)| > 0 && !(result.Some? && result.value.success && result.value.data.Some?) ==>
                && !timerStarted
                && error == Some(if result.None? then ReserveErrorMsg else ErrorOr(result.value.error, ReserveFailedMsg))
                && selectedSeats == old(selectedSeats) && allSeats == old(allSeats) && seatStatusMap == old(seatStatusMap)
                && reservedTicketIds == old(reservedTicketIds)
      ensures |old(selectedSeats)| > 0 && result.Some? && result.value.success && result.value.data.Some? ==>
                && timerStarted == (result.value.error.None? || result.value.error.value == "")
                && selectedSeats == [] && reservedTicketIds == result.value.data.value
                && TotalPrice() == 0 && ReservedTotalPrice() == SeatsTotal(selectedSection, |result.value.data.value|)
                && (selectedSection.Some? && fetched.Some? ==>
                      error.None? && allSeats == fetched.value && seatStatusMap == StatusMap(fetched.value, now, holdMs))
                && (selectedSection.Some? && fetched.None? ==>
                      error == Some(LoadFailedMsg) && allSeats == old(allSeats) && seatStatusMap == old(seatStatusMap))
                && (selectedSection.None? ==>
                      error == (if timerStarted then None else result.value.error)
                      && allSeats == old(allSeats) && seatStatusMap == old(seatStatusMap))
      ensures selectedSection == old(selectedSection)
    {
      if |selectedSeats| == 0 {
        error := Some(EmptySelectionMsg);
        return None, false;
      }
      request := Some(selectedSeats);
      timerStarted := false;
      error := None;
      if result.None? {
        error := Some(ReserveErrorMsg);
        return;
      }
      var r := result.value;
      if r.success && r.data.Some? {
        reservedTicketIds := r.data.value;
        selectedSeats := [];
        if r.error.Some? && r.error.value != "" {
          error := r.error;
        } else {
          timerStarted := true;
        }
        if selectedSection.Some? {
          LoadAllSeats(fetched, now);
        }
      } else {
        error := Some(ErrorOr(r.error, ReserveFailedMsg));
      }
    }

    /** The 5-minute countdown firing: the reservation is dropped and the
        section's seats reloaded. */
    method OnReservationExpired(fetched: Option<seq<Row>>, now: int)
      requires Valid()
      modifies this
      ensures Valid() && reservedTicketIds == []
      ensures selectedSection == old(selectedSection) && selectedSeats == old(selectedSeats)
      ensures selectedSection.Some? && fetched.Some? ==>
                error.None? && allSeats == fetched.value && seatStatusMap == StatusMap(fetched.value, now, holdMs)
      ensures !(selectedSection.Some? && fetched.Some?) ==> allSeats == old(allSeats) && seatStatusMap == old(seatStatusMap)
      ensures selectedSection.Some? && fetched.None? ==> error == Some(LoadFailedMsg)
      ensures selectedSection.None? ==> error == old(error)
    {
      reservedTicketIds := [];
      if selectedSection.Some? {
        LoadAllSeats(fetched, now);
      }
    }

    /** `handlePurchase()`, as in the 10-second hook. */
    method HandlePurchase(result: Option<ApiResponse<Id>>)
      returns (request: Option<seq<Id>>, navigateTo: Option<Id>)
      requires Valid()
      modifies this
      ensures Valid()
      ensures |old(reservedTicketIds)| == 0 ==>
                request.None? && navigateTo.None? && error == Some(NothingToPurchaseMsg)
      ensures |old(reservedTicketIds)| > 0 ==> request == Some(old(reservedTicketIds))
      ensures |old(reservedTicketIds)| > 0 && result.Some? && result.value.success && result.value.data.Some? ==>
                navigateTo == result.value.data && error.None?
      ensures |old(reservedTicketIds)| > 0 && !(result.Some? && result.value.success && result.value.data.Some?) ==>
                && navigateTo.None?
                && error == Some(if result.None? then PurchaseErrorMsg else ErrorOr(result.value.error, PurchaseFailedMsg))
      ensures selectedSection == old(selectedSection) && allSeats == old(allSeats) && seatStatusMap == old(seatStatusMap)
      ensures selectedSeats == old(selectedSeats) && reservedTicketIds == old(reservedTicketIds)
    {
      if |reservedTicketIds| == 0 {
        error := Some(NothingToPurchaseMsg);
        return None, None;
      }
      request, navigateTo := Some(reservedTicketIds), None;
      error := None;
      if result.None? {
        error := Some(PurchaseErrorMsg);
      } else if result.value.success && result.value.data.Some? {
        navigateTo := result.value.data;
      } else {
        error := Some(ErrorOr(result.value.error, PurchaseFailedMsg));
      }
    }
  }
}
