/** Availability counting of lib/seat-calculations.ts: the number of a
    section's tickets whose stored status is available, for one section, for
    a list of sections, and attached to section records. A reserved ticket is
    not counted, however old its hold. */
module SeatCalculations {
  import opened Common
  import opened Store
  import opened TicketActions

  /** The keys of the section's tickets with status available. */
  function AvailableIn(tickets: map<Id, Ticket>, sectionId: Id): set<Id> {
    set id | id in tickets && tickets[id].sectionId == sectionId && tickets[id].status == Available
  }

  /** `calculateAvailableSeats(sectionId)`: `COUNT(*) ... WHERE section_id = $1 AND status = 'available'` */
  function CalculateAvailableSeats(tickets: map<Id, Ticket>, sectionId: Id): nat {
    |AvailableIn(tickets, sectionId)|
  }

  /** Only the stored status counts: a reserved or sold seat is never
      counted, even when its hold has long expired; an available one always is. */
  lemma AvailableCountIsStoredStatus(tickets: map<Id, Ticket>, sectionId: Id, id: Id)
    requires id in tickets && tickets[id].sectionId == sectionId
    ensures id in AvailableIn(tickets, sectionId) <==> tickets[id].status == Available
    ensures CalculateAvailableSeats(tickets, sectionId) >= 1 || tickets[id].status != Available
  {
    if tickets[id].status == Available {
      assert id in AvailableIn(tickets, sectionId);
    }
  }

  /** Changing tickets outside a section, or changing only fields other than
      the status, leaves the section's count alone. Stated for one ticket. */
  lemma {:induction false} CountUnaffectedElsewhere(tickets: map<Id, Ticket>, sectionId: Id, id: Id, t: Ticket)
    requires id in tickets
    requires (t.sectionId != sectionId && tickets[id].sectionId != sectionId)
             || (t.sectionId == tickets[id].sectionId && t.status == tickets[id].status)
    ensures CalculateAvailableSeats(tickets[id := t], sectionId) == CalculateAvailableSeats(tickets, sectionId)
  {
    assert AvailableIn(tickets[id := t], sectionId) == AvailableIn(tickets, sectionId);
  }

  /** A successful reservation takes exactly the claimed seats out of their section's count. */
  lemma AvailabilityAfterReserve(
    tickets: map<Id, Ticket>, ticketIds: seq<Id>, userId: Id, now: int, holdMs: nat, sectionId: Id)
    ensures var t := Reserve(tickets, ticketIds, userId, userId, now, holdMs).0;
            var claimed := if ticketIds == [] then [] else ClaimEach(tickets, ticketIds, userId, now, holdMs).1;
            AvailableIn(t, sectionId) == AvailableIn(tickets, sectionId) - (set id | id in claimed)
  {
  }

  /** A successful cancellation adds exactly the released seats of the section to its count. */
  lemma AvailabilityAfterCancel(tickets: map<Id, Ticket>, ticketIds: seq<Id>, userId: Id, sectionId: Id)
    requires ticketIds != [] && Cancel(tickets, ticketIds, userId, userId).1.success
    ensures AvailableIn(Cancel(tickets, ticketIds, userId, userId).0, sectionId)
            == AvailableIn(tickets, sectionId)
               + (set id | id in ticketIds && id in tickets && tickets[id].sectionId == sectionId)
  {
    CancelOutcomes(tickets, ticketIds, userId);
  }

  /** A purchase never changes any section's count: the seats it sells were reserved. */
  lemma AvailabilityAfterPurchase(
    tickets: map<Id, Ticket>, sections: map<Id, Section>, orders: map<Id, Order>, orderItems: seq<OrderItem>,
    ticketIds: seq<Id>, caller: Id, now: int, holdMs: nat, orderId: Id, sectionId: Id)
    requires SectionsKnown(tickets, sections)
    ensures var e := Purchase(tickets, sections, orders, orderItems, ticketIds, caller, now, holdMs, orderId);
            AvailableIn(e.tickets, sectionId) == AvailableIn(tickets, sectionId)
  {
    if ticketIds != [] && FirstFailure(PurchaseChecks(tickets, Loaded(tickets, ticketIds), caller, now, holdMs)).None? {
      PurchasedSeatsWereHeld(tickets, ticketIds, caller, now, holdMs);
      SellingHeldSeatsKeepsCount(tickets, ticketIds, orderId, sectionId);
    }
  }

  lemma SellingHeldSeatsKeepsCount(tickets: map<Id, Ticket>, ticketIds: seq<Id>, orderId: Id, sectionId: Id)
    requires forall id :: id in ticketIds && id in tickets ==> tickets[id].status == Reserved
    ensures AvailableIn(SellAll(tickets, ticketIds, orderId), sectionId) == AvailableIn(tickets, sectionId)
  {
  }

  /** The rows of the `GROUP BY section_id` query: the requested sections
      that have at least one available ticket, with their counts. */
  function GroupedCounts(tickets: map<Id, Ticket>, sectionIds: seq<Id>): (rows: map<Id, nat>)
    ensures forall s :: s in rows <==> s in sectionIds && CalculateAvailableSeats(tickets, s) > 0
    ensures forall s :: s in rows ==> rows[s] == CalculateAvailableSeats(tickets, s)
  {
    map s | s in sectionIds && CalculateAvailableSeats(tickets, s) > 0 :: CalculateAvailableSeats(tickets, s)
  }

  /** `calculateAvailableSeatsBulk(sectionIds)`: one key per distinct input id
      (none for an empty input), each mapped to its section's count, 0 when
      the section has no available ticket. */
  method CalculateAvailableSeatsBulk(db: Database, sectionIds: seq<Id>) returns (counts: map<Id, nat>)
    ensures forall s :: s in counts <==> s in sectionIds
    ensures forall s :: s in counts ==> counts[s] == CalculateAvailableSeats(db.tickets, s)
  {
    if |sectionIds| == 0 {
      return map[];
    }
    var rows := GroupedCounts(db.tickets, sectionIds);
    counts := map[];
    var pending := rows.Keys;
    while pending != {}
      invariant pending <= rows.Keys
      invariant forall s :: s in counts <==> s in rows && s !in pending
      invariant forall s :: s in counts ==> counts[s] == rows[s]
      decreases pending
    {
      var s :| s in pending;
      counts := counts[s := rows[s]];
      pending := pending - {s};
    }
    // Zero for every requested section without a row.
    var i := 0;
    while i < |sectionIds|
      invariant 0 <= i <= |sectionIds|
      invariant forall s :: s in counts <==> s in rows || s in sectionIds[..i]
      invariant forall s :: s in counts ==> counts[s] == if s in rows then rows[s] else 0
    {
      if sectionIds[i] !in counts {
        counts := counts[sectionIds[i] := 0];
      }
      assert sectionIds[..i + 1] == sectionIds[..i] + [sectionIds[i]];
      i := i + 1;
    }
    assert sectionIds[..i] == sectionIds;
  }

  /** A section record with its computed count (`SeatingSectionWithAvailability`). */
  datatype SectionWithAvailability = SectionWithAvailability(id: Id, section: Section, availableSeats: nat)

  /** `enrichSectionsWithAvailability(sections)`: the same sections in the same
      order with the same fields, each given its section's count. */
  method EnrichSectionsWithAvailability(db: Database, sections: seq<SectionRow>)
    returns (out: seq<SectionWithAvailability>)
    ensures |out| == |sections|
    ensures forall k :: 0 <= k < |out| ==>
              && out[k].id == sections[k].id && out[k].section == sections[k].section
              && out[k].availableSeats == CalculateAvailableSeats(db.tickets, sections[k].id)
  {
    if |sections| == 0 {
      return [];
    }
    var sectionIds := seq(|sections|, k requires 0 <= k < |sections| => sections[k].id);
    var counts := CalculateAvailableSeatsBulk(db, sectionIds);
    assert forall k :: 0 <= k < |sections| ==> sections[k].id in sectionIds by {
      forall k | 0 <= k < |sections| ensures sections[k].id in sectionIds {
        assert sectionIds[k] == sections[k].id;
      }
    }
    out := seq(|sections|, k requires 0 <= k < |sections| =>
             SectionWithAvailability(sections[k].id, sections[k].section,
                                     if sections[k].id in counts then counts[sections[k].id] else 0));
  }
}
