/** The event actions of ticketing-system/actions/event-actions.ts: creating
    an event with its seating sections and one ticket per seat (one
    transaction), editing an event's details, and listing events by date
    with their sections and availability.

    The signed-in user is a parameter (`None` when nobody is signed in), as
    is whether that user is an administrator; the time `now` and the date
    `today` are parameters too. The `sections` form field is given already
    parsed. */
module EventActions {
  import opened Common
  import opened Sorting
  import opened Store
  import opened Utils
  import opened SeatCalculations

  const AllFieldsRequiredMsg := "All event fields are required"
  const NoSectionsMsg := "At least one seating section is required"
  const CreateFailedMsg := "Failed to create event"
  const EventNotFoundMsg := "Event not found"
  const UpdateFailedMsg := "Failed to update event"
  const UpcomingLimit := 10

  /** The event fields of the form. An empty date field is `None`. */
  datatype EventForm = EventForm(name: string, description: string, eventDate: Option<int>, eventTime: string, venue: string)

  /** `!name || !description || !eventDate || !eventTime || !venue` fails. */
  predicate FieldsPresent(f: EventForm) {
    f.name != "" && f.description != "" && f.eventDate.Some? && f.eventTime != "" && f.venue != ""
  }

  /** One entry of the `sections` JSON array. */
  datatype SectionInput = SectionInput(sectionName: string, price: int, totalSeats: int)

  /** The `sections` field: text `JSON.parse` rejects, `null`, or an array. */
  datatype SectionsJson = Malformed | Null | Parsed(list: seq<SectionInput>)

  /** An `events` row with its key, as `RETURNING *` gives it. */
  datatype EventRow = EventRow(id: Id, event: Event)

  // ---------------------------------------------------------------------------
  // createEvent
  // ---------------------------------------------------------------------------

  /** How many tickets a section gets: `generateSeatNumbers` makes none for a
      count of zero or less. */
  function TicketCount(totalSeats: int): nat {
    if totalSeats > 0 then totalSeats else 0
  }

  /** The seat labels a section is given: those of `generateSeatNumbers` for
      its seat count. A section too large for the row letters gets none here;
      its inserts fail the transaction, which `Create` refuses as a whole. */
  function SeatLabelsFor(totalSeats: int): (r: seq<string>)
    ensures |r| <= TicketCount(totalSeats)
  {
    if totalSeats <= MaxSeatsPerSection then Labels(TicketCount(totalSeats)) else []
  }

  /** A freshly provisioned seat: available, nobody's, in no order. */
  function NewTicket(eventId: Id, sectionId: Id, seatNumber: string): (t: Ticket)
    ensures t.status == Available && Consistent(t)
  {
    Ticket(eventId, sectionId, seatNumber, None, None, Available, None)
  }

  /** The ticket insert loop of one section: one ticket per seat number, keys
      from `start` on in seat-number order. */
  function InsertTickets(tickets: map<Id, Ticket>, eventId: Id, sectionId: Id, start: Id, seatNumbers: seq<string>)
    : map<Id, Ticket>
  {
    if seatNumbers == [] then tickets
    else
      var k := |seatNumbers| - 1;
      InsertTickets(tickets, eventId, sectionId, start, seatNumbers[..k])[start + k := NewTicket(eventId, sectionId, seatNumbers[k])]
  }

  /** The loop adds the keys `start`, ..., `start + |seatNumbers| - 1`, the
      ticket at each carrying its seat number, and keeps every other ticket. */
  lemma {:induction false} InsertTicketsContents(
    tickets: map<Id, Ticket>, eventId: Id, sectionId: Id, start: Id, seatNumbers: seq<string>)
    ensures var r := InsertTickets(tickets, eventId, sectionId, start, seatNumbers);
            forall id :: id in r <==> id in tickets || start <= id < start + |seatNumbers|
    ensures var r := InsertTickets(tickets, eventId, sectionId, start, seatNumbers);
            forall i :: 0 <= i < |seatNumbers| ==> r[start + i] == NewTicket(eventId, sectionId, seatNumbers[i])
    ensures var r := InsertTickets(tickets, eventId, sectionId, start, seatNumbers);
            forall id :: id in tickets && !(start <= id < start + |seatNumbers|) ==> r[id] == tickets[id]
  {
    if seatNumbers != [] {
      var k := |seatNumbers| - 1;
      InsertTicketsContents(tickets, eventId, sectionId, start, seatNumbers[..k]);
    }
  }

  /** One more pass of the ticket insert loop. */
  lemma InsertTicketsStep(tickets: map<Id, Ticket>, eventId: Id, sectionId: Id, start: Id, seatNumbers: seq<string>, i: nat)
    requires i < |seatNumbers|
    ensures InsertTickets(tickets, eventId, sectionId, start, seatNumbers[..i + 1])
            == InsertTickets(tickets, eventId, sectionId, start, seatNumbers[..i])[start + i := NewTicket(eventId, sectionId, seatNumbers[i])]
  {
    assert seatNumbers[..i + 1][..i] == seatNumbers[..i];
  }

  /** Every section can be given its seat labels. A larger section needs row
      letters beyond the character range; its inserts are the transaction's
      failure. */
  predicate Fits(inputs: seq<SectionInput>) {
    forall input :: input in inputs ==> input.totalSeats <= MaxSeatsPerSection
  }

  /** The next free key after provisioning `inputs` from key `next` on: one
      key per section and one per ticket. */
  function NextAfter(next: Id, inputs: seq<SectionInput>): Id {
    if inputs == [] then next
    else NextAfter(next, inputs[..|inputs| - 1]) + 1 + TicketCount(inputs[|inputs| - 1].totalSeats)
  }

  /** The section rows the section loop inserts: input `k` gets key
      `NextAfter(next, inputs[..k])`. */
  function AddSections(sections: map<Id, Section>, eventId: Id, next: Id, inputs: seq<SectionInput>): map<Id, Section> {
    if inputs == [] then sections
    else
      var k := |inputs| - 1;
      AddSections(sections, eventId, next, inputs[..k])[NextAfter(next, inputs[..k]) :=
        Section(eventId, inputs[k].sectionName, inputs[k].price, inputs[k].totalSeats)]
  }

  /** A seat labelling gives no section more labels than its seat count. */
  ghost predicate LabelsWithin(seatLabels: int -> seq<string>) {
    forall totalSeats :: |seatLabels(totalSeats)| <= TicketCount(totalSeats)
  }

  lemma SeatLabelsWithin()
    ensures LabelsWithin(SeatLabelsFor)
  {
    forall totalSeats ensures |SeatLabelsFor(totalSeats)| <= TicketCount(totalSeats) {
      var r := SeatLabelsFor(totalSeats);
    }
  }

  /** The tickets the section loop inserts: after each section's key, one key
      per label `seatLabels` gives that section. */
  function AddTickets(tickets: map<Id, Ticket>, eventId: Id, next: Id, inputs: seq<SectionInput>,
                      seatLabels: int -> seq<string>): map<Id, Ticket> {
    if inputs == [] then tickets
    else
      var k := |inputs| - 1;
      var sid := NextAfter(next, inputs[..k]);
      InsertTickets(AddTickets(tickets, eventId, next, inputs[..k], seatLabels), eventId, sid, sid + 1,
                    seatLabels(inputs[k].totalSeats))
  }

  /** One more pass of the section loop, in terms of the first `k + 1`
      inputs: the next free key, the section rows and the tickets. */
  lemma NextAfterUnfold(next: Id, inputs: seq<SectionInput>, k: nat)
    requires k < |inputs|
    ensures NextAfter(next, inputs[..k + 1]) == NextAfter(next, inputs[..k]) + 1 + TicketCount(inputs[k].totalSeats)
  {
    assert inputs[..k + 1][..k] == inputs[..k];
  }

  lemma AddSectionsUnfold(sections: map<Id, Section>, eventId: Id, next: Id, inputs: seq<SectionInput>, k: nat)
    requires k < |inputs|
    ensures AddSections(sections, eventId, next, inputs[..k + 1])
            == AddSections(sections, eventId, next, inputs[..k])[NextAfter(next, inputs[..k]) :=
                 Section(eventId, inputs[k].sectionName, inputs[k].price, inputs[k].totalSeats)]
  {
    assert inputs[..k + 1][..k] == inputs[..k];
  }

  lemma AddTicketsUnfold(
    tickets: map<Id, Ticket>, eventId: Id, next: Id, inputs: seq<SectionInput>, k: nat, seatLabels: int -> seq<string>)
    requires k < |inputs|
    ensures AddTickets(tickets, eventId, next, inputs[..k + 1], seatLabels)
            == InsertTickets(AddTickets(tickets, eventId, next, inputs[..k], seatLabels), eventId, NextAfter(next, inputs[..k]),
                             NextAfter(next, inputs[..k]) + 1, seatLabels(inputs[k].totalSeats))
  {
    assert inputs[..k + 1][..k] == inputs[..k];
  }

  lemma AddTicketsLastUnfold(
    tickets: map<Id, Ticket>, eventId: Id, next: Id, inputs: seq<SectionInput>, seatLabels: int -> seq<string>)
    requires inputs != []
    ensures var init := inputs[..|inputs| - 1];
            AddTickets(tickets, eventId, next, inputs, seatLabels)
            == InsertTickets(AddTickets(tickets, eventId, next, init, seatLabels), eventId, NextAfter(next, init),
                             NextAfter(next, init) + 1, seatLabels(inputs[|inputs| - 1].totalSeats))
  {
  }

  lemma ProvisionedTicketsUnfold(tickets: map<Id, Ticket>, eventId: Id, next: Id, inputs: seq<SectionInput>, k: nat)
    requires k < |inputs|
    ensures AddTickets(tickets, eventId, next, inputs[..k + 1], SeatLabelsFor)
            == InsertTickets(AddTickets(tickets, eventId, next, inputs[..k], SeatLabelsFor), eventId, NextAfter(next, inputs[..k]),
                             NextAfter(next, inputs[..k]) + 1, SeatLabelsFor(inputs[k].totalSeats))
  {
    AddTicketsUnfold(tickets, eventId, next, inputs, k, SeatLabelsFor);
  }

  /** Provisioning section `k` after the first `k` gives the state after the
      first `k + 1`. */
  lemma ProvisionStep(
    sections0: map<Id, Section>, tickets0: map<Id, Ticket>, eventId: Id, next: Id, inputs: seq<SectionInput>, k: nat,
    sid: Id, sectionsBefore: map<Id, Section>, ticketsBefore: map<Id, Ticket>,
    sectionsAfter: map<Id, Section>, ticketsAfter: map<Id, Ticket>, nextAfter: Id)
    requires k < |inputs|
    requires sid == NextAfter(next, inputs[..k])
    requires sectionsBefore == AddSections(sections0, eventId, next, inputs[..k])
    requires ticketsBefore == AddTickets(tickets0, eventId, next, inputs[..k], SeatLabelsFor)
    requires sectionsAfter == sectionsBefore[sid := Section(eventId, inputs[k].sectionName, inputs[k].price, inputs[k].totalSeats)]
    requires ticketsAfter == InsertTickets(ticketsBefore, eventId, sid, sid + 1, SeatLabelsFor(inputs[k].totalSeats))
    requires nextAfter == sid + 1 + TicketCount(inputs[k].totalSeats)
    ensures sectionsAfter == AddSections(sections0, eventId, next, inputs[..k + 1])
    ensures ticketsAfter == AddTickets(tickets0, eventId, next, inputs[..k + 1], SeatLabelsFor)
    ensures nextAfter == NextAfter(next, inputs[..k + 1])
  {
    NextAfterUnfold(next, inputs, k);
    AddSectionsUnfold(sections0, eventId, next, inputs, k);
    ProvisionedTicketsUnfold(tickets0, eventId, next, inputs, k);
  }

  /** The first `k + 1` sections fit when the first `k` do and section `k` does. */
  lemma FitsStep(inputs: seq<SectionInput>, k: nat)
    requires k < |inputs| && Fits(inputs[..k]) && inputs[k].totalSeats <= MaxSeatsPerSection
    ensures Fits(inputs[..k + 1])
  {
    assert inputs[..k + 1] == inputs[..k] + [inputs[k]];
  }

  /** What `createEvent` leaves behind. */
  datatype CreateEffect = CreateEffect(
    events: map<Id, Event>,
    sections: map<Id, Section>,
    tickets: map<Id, Ticket>,
    nextId: Id,
    response: ApiResponse<EventRow>)

  /** `createEvent(formData)` by `caller` at time `now`. A missing user or
      unparsable sections fail before anything is checked; then the fields,
      then the section list; the transaction either creates the event, its
      sections and tickets, or (a section too large to label) nothing. */
  function Create(
    events: map<Id, Event>, sections: map<Id, Section>, tickets: map<Id, Ticket>, nextId: Id,
    caller: Option<Id>, form: EventForm, json: SectionsJson, now: int): CreateEffect
  {
    if caller.None? || json.Malformed? then CreateEffect(events, sections, tickets, nextId, Fail(CreateFailedMsg))
    else if !FieldsPresent(form) then CreateEffect(events, sections, tickets, nextId, Fail(AllFieldsRequiredMsg))
    else if json.Null? || json.list == [] then CreateEffect(events, sections, tickets, nextId, Fail(NoSectionsMsg))
    else if !Fits(json.list) then CreateEffect(events, sections, tickets, nextId, Fail(CreateFailedMsg))
    else
      var event := Event(form.name, form.description, form.eventDate.value, form.eventTime, form.venue, caller.value, now);
      CreateEffect(events[nextId := event],
                   AddSections(sections, nextId, nextId + 1, json.list),
                   AddTickets(tickets, nextId, nextId + 1, json.list, SeatLabelsFor),
                   NextAfter(nextId + 1, json.list), Ok(EventRow(nextId, event)))
  }

  /** Each later section starts after the earlier sections and their tickets. */
  lemma {:induction false} NextAfterPrefix(next: Id, inputs: seq<SectionInput>, k: nat)
    requires k < |inputs|
    ensures next <= NextAfter(next, inputs[..k])
    ensures NextAfter(next, inputs[..k]) + 1 + TicketCount(inputs[k].totalSeats) <= NextAfter(next, inputs)
  {
    var last := |inputs| - 1;
    if k < last {
      assert inputs[..last][..k] == inputs[..k];
      assert inputs[..last][k] == inputs[k];
      NextAfterPrefix(next, inputs[..last], k);
    } else {
      assert inputs[..k] == inputs[..last];
      NextAfterGrows(next, inputs[..last]);
    }
  }

  lemma {:induction false} NextAfterGrows(next: Id, inputs: seq<SectionInput>)
    ensures next <= NextAfter(next, inputs)
  {
    if inputs != [] {
      NextAfterGrows(next, inputs[..|inputs| - 1]);
    }
  }

  /** The section loop keeps every existing section and adds keys only from
      `next` on. */
  lemma {:induction false} AddSectionsExtends(sections: map<Id, Section>, eventId: Id, next: Id, inputs: seq<SectionInput>)
    requires forall id :: id in sections ==> id < next
    ensures forall id :: id in sections ==>
              id in AddSections(sections, eventId, next, inputs) && AddSections(sections, eventId, next, inputs)[id] == sections[id]
    ensures forall id :: id in AddSections(sections, eventId, next, inputs) ==> id < NextAfter(next, inputs)
  {
    if inputs != [] {
      var k := |inputs| - 1;
      AddSectionsExtends(sections, eventId, next, inputs[..k]);
      NextAfterGrows(next, inputs[..k]);
    }
  }

  /** The ticket loop keeps every existing ticket and adds keys only from
      `next` on, each for a section keyed below the next free key. */
  lemma {:induction false} AddTicketsExtends(
    tickets: map<Id, Ticket>, eventId: Id, next: Id, inputs: seq<SectionInput>, seatLabels: int -> seq<string>)
    requires LabelsWithin(seatLabels)
    requires forall id :: id in tickets ==> id < next && tickets[id].sectionId < next
    ensures forall id :: id in tickets ==>
              id in AddTickets(tickets, eventId, next, inputs, seatLabels) && AddTickets(tickets, eventId, next, inputs, seatLabels)[id] == tickets[id]
    ensures forall id :: id in AddTickets(tickets, eventId, next, inputs, seatLabels) ==>
              id < NextAfter(next, inputs) && AddTickets(tickets, eventId, next, inputs, seatLabels)[id].sectionId < NextAfter(next, inputs)
  {
    if inputs != [] {
      var k := |inputs| - 1;
      AddTicketsExtends(tickets, eventId, next, inputs[..k], seatLabels);
      NextAfterGrows(next, inputs[..k]);
      var sid := NextAfter(next, inputs[..k]);
      assert |seatLabels(inputs[k].totalSeats)| <= TicketCount(inputs[k].totalSeats);
      var labels := seatLabels(inputs[k].totalSeats);
      var t := AddTickets(tickets, eventId, next, inputs, seatLabels);
      AddTicketsLastUnfold(tickets, eventId, next, inputs, seatLabels);
      InsertTicketsContents(AddTickets(tickets, eventId, next, inputs[..k], seatLabels), eventId, sid, sid + 1, labels);
      forall id | id in t && sid + 1 <= id < sid + 1 + |labels| ensures t[id].sectionId == sid {
        assert t[sid + 1 + (id - sid - 1)] == NewTicket(eventId, sid, labels[id - sid - 1]);
      }
    }
  }

  /** One pass of the section loop keeps the tables valid: a row of the event
      at key `sid`, and its tickets at the keys right after it. */
  lemma ProvisionStepValid(
    events: map<Id, Event>, sections: map<Id, Section>, tickets: map<Id, Ticket>,
    orders: map<Id, Order>, orderItems: seq<OrderItem>,
    sid: Id, section: Section, labels: seq<string>, bound: Id)
    requires section.eventId in events
    requires TablesValid(events, sections, tickets, orders, orderItems, sid)
    requires sid + 1 + |labels| <= bound
    ensures TablesValid(events, sections[sid := section],
                        InsertTickets(tickets, section.eventId, sid, sid + 1, labels), orders, orderItems, bound)
  {
    var s := sections[sid := section];
    InsertTicketsContents(tickets, section.eventId, sid, sid + 1, labels);
    forall id | id in tickets ensures TicketValid(tickets[id], s, orders) {
      assert TicketValid(tickets[id], sections, orders);
    }
  }

  /** Every new section belongs to the new event and every new ticket is a
      consistent row of a new section, so provisioning keeps the tables valid. */
  lemma {:induction false} ProvisionValid(
    events: map<Id, Event>, sections: map<Id, Section>, tickets: map<Id, Ticket>,
    orders: map<Id, Order>, orderItems: seq<OrderItem>, eventId: Id, next: Id, inputs: seq<SectionInput>,
    seatLabels: int -> seq<string>)
    requires LabelsWithin(seatLabels) && eventId in events
    requires TablesValid(events, sections, tickets, orders, orderItems, next)
    ensures TablesValid(events, AddSections(sections, eventId, next, inputs), AddTickets(tickets, eventId, next, inputs, seatLabels),
                        orders, orderItems, NextAfter(next, inputs))
  {
    if inputs != [] {
      var k := |inputs| - 1;
      ProvisionValid(events, sections, tickets, orders, orderItems, eventId, next, inputs[..k], seatLabels);
      var input := inputs[k];
      ProvisionStepValid(events, AddSections(sections, eventId, next, inputs[..k]),
                         AddTickets(tickets, eventId, next, inputs[..k], seatLabels), orders, orderItems,
                         NextAfter(next, inputs[..k]), Section(eventId, input.sectionName, input.price, input.totalSeats),
                         seatLabels(input.totalSeats), NextAfter(next, inputs));
    }
  }

  /** `t` holds the tickets of section `sid` of event `eventId`: exactly the
      keys after `sid`, one per label, each available and carrying its label. */
  ghost predicate HoldsSection(t: map<Id, Ticket>, eventId: Id, sid: Id, labels: seq<string>) {
    && (forall id :: id in t && t[id].sectionId == sid <==> sid < id <= sid + |labels|)
    && (forall i :: 0 <= i < |labels| ==> sid + 1 + i in t && t[sid + 1 + i] == NewTicket(eventId, sid, labels[i]))
  }

  /** Inserting a section's tickets after its key, into a table with no key
      from it on, gives that section exactly those tickets. */
  lemma InsertMakesSection(t0: map<Id, Ticket>, eventId: Id, sid: Id, labels: seq<string>)
    requires forall id :: id in t0 ==> id < sid && t0[id].sectionId < sid
    ensures HoldsSection(InsertTickets(t0, eventId, sid, sid + 1, labels), eventId, sid, labels)
  {
    var t := InsertTickets(t0, eventId, sid, sid + 1, labels);
    InsertTicketsContents(t0, eventId, sid, sid + 1, labels);
    forall id ensures id in t && t[id].sectionId == sid <==> sid < id <= sid + |labels| {
      if id in t0 {
        assert t[id] == t0[id];
      } else if sid < id <= sid + |labels| {
        assert t[sid + 1 + (id - sid - 1)] == NewTicket(eventId, sid, labels[id - sid - 1]);
      }
    }
  }

  /** Inserting another section's tickets after a section's last key leaves
      that section's tickets as they are. */
  lemma InsertKeepsSection(t0: map<Id, Ticket>, eventId: Id, sid: Id, labels: seq<string>,
                           top: Id, more: seq<string>)
    requires HoldsSection(t0, eventId, sid, labels) && sid + |labels| < top
    ensures HoldsSection(InsertTickets(t0, eventId, top, top + 1, more), eventId, sid, labels)
  {
    var t := InsertTickets(t0, eventId, top, top + 1, more);
    InsertTicketsContents(t0, eventId, top, top + 1, more);
    forall id ensures id in t && t[id].sectionId == sid <==> sid < id <= sid + |labels| {
      if id in t && top + 1 <= id < top + 1 + |more| {
        assert t[top + 1 + (id - top - 1)] == NewTicket(eventId, top, more[id - top - 1]);
      }
    }
  }

  /** Section `k` of the input gets key `NextAfter(next, inputs[..k])` and a
      row with the input's name, price and seat count. */
  lemma {:induction false} AddedSection(sections: map<Id, Section>, eventId: Id, next: Id, inputs: seq<SectionInput>, k: nat)
    requires k < |inputs|
    ensures NextAfter(next, inputs[..k]) in AddSections(sections, eventId, next, inputs)
    ensures AddSections(sections, eventId, next, inputs)[NextAfter(next, inputs[..k])]
            == Section(eventId, inputs[k].sectionName, inputs[k].price, inputs[k].totalSeats)
  {
    var last := |inputs| - 1;
    if k == last {
      assert inputs[..k] == inputs[..last];
    } else {
      var init := inputs[..last];
      assert init[..k] == inputs[..k];
      assert init[k] == inputs[k];
      AddedSection(sections, eventId, next, init, k);
      NextAfterPrefix(next, init, k);
    }
  }

  /** The last section's tickets are exactly the keys after its own key. */
  lemma AddTicketsLast(
    tickets: map<Id, Ticket>, eventId: Id, next: Id, inputs: seq<SectionInput>, seatLabels: int -> seq<string>)
    requires LabelsWithin(seatLabels) && inputs != []
    requires forall id :: id in tickets ==> id < next && tickets[id].sectionId < next
    ensures HoldsSection(AddTickets(tickets, eventId, next, inputs, seatLabels), eventId, NextAfter(next, inputs[..|inputs| - 1]),
                         seatLabels(inputs[|inputs| - 1].totalSeats))
  {
    var last := |inputs| - 1;
    var init := inputs[..last];
    var t0 := AddTickets(tickets, eventId, next, init, seatLabels);
    var top := NextAfter(next, init);
    var labels := seatLabels(inputs[last].totalSeats);
    AddTicketsLastUnfold(tickets, eventId, next, inputs, seatLabels);
    AddTicketsExtends(tickets, eventId, next, init, seatLabels);
    InsertMakesSection(t0, eventId, top, labels);
  }

  /** The last section's tickets leave those of an earlier section alone. */
  lemma AddTicketsKeep(
    tickets: map<Id, Ticket>, eventId: Id, next: Id, inputs: seq<SectionInput>, sid: Id, labels: seq<string>,
    seatLabels: int -> seq<string>)
    requires inputs != []
    requires HoldsSection(AddTickets(tickets, eventId, next, inputs[..|inputs| - 1], seatLabels), eventId, sid, labels)
    requires sid + |labels| < NextAfter(next, inputs[..|inputs| - 1])
    ensures HoldsSection(AddTickets(tickets, eventId, next, inputs, seatLabels), eventId, sid, labels)
  {
    var last := |inputs| - 1;
    var init := inputs[..last];
    var t0 := AddTickets(tickets, eventId, next, init, seatLabels);
    var top := NextAfter(next, init);
    var more := seatLabels(inputs[last].totalSeats);
    AddTicketsLastUnfold(tickets, eventId, next, inputs, seatLabels);
    InsertKeepsSection(t0, eventId, sid, labels, top, more);
  }

  /** The tickets of section `k` are exactly the keys after the section's own
      key, one per seat label, in label order. */
  lemma {:induction false} AddedTickets(
    tickets: map<Id, Ticket>, eventId: Id, next: Id, inputs: seq<SectionInput>, k: nat, seatLabels: int -> seq<string>)
    requires LabelsWithin(seatLabels) && k < |inputs|
    requires forall id :: id in tickets ==> id < next && tickets[id].sectionId < next
    ensures HoldsSection(AddTickets(tickets, eventId, next, inputs, seatLabels), eventId, NextAfter(next, inputs[..k]),
                         seatLabels(inputs[k].totalSeats))
  {
    var last := |inputs| - 1;
    var init := inputs[..last];
    if k == last {
      assert inputs[..k] == init;
      AddTicketsLast(tickets, eventId, next, inputs, seatLabels);
    } else {
      assert init[..k] == inputs[..k];
      assert init[k] == inputs[k];
      AddedTickets(tickets, eventId, next, init, k, seatLabels);
      NextAfterPrefix(next, init, k);
      AddTicketsKeep(tickets, eventId, next, inputs, NextAfter(next, inputs[..k]), seatLabels(inputs[k].totalSeats), seatLabels);
    }
  }

  /** The keys `lo`, ..., `lo + n - 1`. */
  function KeyRange(lo: Id, n: nat): (r: set<Id>)
    ensures forall id :: id in r <==> lo <= id < lo + n
    ensures |r| == n
  {
    if n == 0 then {} else KeyRange(lo, n - 1) + {lo + n - 1}
  }

  /** A section held this way has one available seat per label, and two of
      its seats share a label only if two labels are equal. */
  lemma HeldSectionAvailability(t: map<Id, Ticket>, eventId: Id, sid: Id, labels: seq<string>)
    requires HoldsSection(t, eventId, sid, labels)
    ensures CalculateAvailableSeats(t, sid) == |labels|
    ensures forall id :: id in t && t[id].sectionId == sid ==> t[id].status == Available
    ensures NoDuplicates(labels) ==>
              forall a, b :: a in t && b in t && a != b && t[a].sectionId == sid && t[b].sectionId == sid ==>
                t[a].seatNumber != t[b].seatNumber
  {
    forall id ensures id in AvailableIn(t, sid) <==> id in KeyRange(sid + 1, |labels|) {
      if sid < id <= sid + |labels| {
        assert t[sid + 1 + (id - sid - 1)] == NewTicket(eventId, sid, labels[id - sid - 1]);
      }
    }
    assert AvailableIn(t, sid) == KeyRange(sid + 1, |labels|);
    forall id | id in t && t[id].sectionId == sid ensures t[id].status == Available {
      assert t[sid + 1 + (id - sid - 1)] == NewTicket(eventId, sid, labels[id - sid - 1]);
    }
    if NoDuplicates(labels) {
      forall a, b | a in t && b in t && a != b && t[a].sectionId == sid && t[b].sectionId == sid
        ensures t[a].seatNumber != t[b].seatNumber
      {
        assert t[sid + 1 + (a - sid - 1)] == NewTicket(eventId, sid, labels[a - sid - 1]);
        assert t[sid + 1 + (b - sid - 1)] == NewTicket(eventId, sid, labels[b - sid - 1]);
      }
    }
  }

  /** A created section starts with all of its seats available: as many as
      its seat count asks for (none for zero or less), with distinct labels. */
  lemma ProvisionedAvailability(tickets: map<Id, Ticket>, eventId: Id, next: Id, inputs: seq<SectionInput>, k: nat)
    requires k < |inputs| && inputs[k].totalSeats <= MaxSeatsPerSection
    requires forall id :: id in tickets ==> id < next && tickets[id].sectionId < next
    ensures var t := AddTickets(tickets, eventId, next, inputs, SeatLabelsFor);
            var sid := NextAfter(next, inputs[..k]);
            && CalculateAvailableSeats(t, sid) == TicketCount(inputs[k].totalSeats)
            && (forall id :: id in t && t[id].sectionId == sid ==> t[id].status == Available)
            && (forall a, b :: a in t && b in t && a != b && t[a].sectionId == sid && t[b].sectionId == sid ==>
                  t[a].seatNumber != t[b].seatNumber)
  {
    var n := TicketCount(inputs[k].totalSeats);
    SeatLabelsWithin();
    AddedTickets(tickets, eventId, next, inputs, k, SeatLabelsFor);
    assert SeatLabelsFor(inputs[k].totalSeats) == Labels(n);
    LabelsDistinct(n);
    HeldSectionAvailability(AddTickets(tickets, eventId, next, inputs, SeatLabelsFor), eventId, NextAfter(next, inputs[..k]), Labels(n));
  }

  /** Every refusal leaves all tables as they were, with its own message, in
      the order the checks are made. */
  lemma CreateRefusals(
    events: map<Id, Event>, sections: map<Id, Section>, tickets: map<Id, Ticket>, nextId: Id,
    caller: Option<Id>, form: EventForm, json: SectionsJson, now: int)
    ensures var e := Create(events, sections, tickets, nextId, caller, form, json, now);
            && (e.response.success <==>
                  caller.Some? && FieldsPresent(form) && json.Parsed? && json.list != [] && Fits(json.list))
            && (!e.response.success ==>
                  && e.events == events && e.sections == sections && e.tickets == tickets && e.nextId == nextId
                  && e.response.error == Some(
                       if caller.None? || json.Malformed? then CreateFailedMsg
                       else if !FieldsPresent(form) then AllFieldsRequiredMsg
                       else if json.Null? || json.list == [] then NoSectionsMsg
                       else CreateFailedMsg))
  {
  }

  /** A successful creation adds exactly one event, owned by the caller and
      carrying the form's fields, and for every input section, in order, one
      section row with its name, price and seat count whose tickets are all
      available and as many as the seat count; nothing that existed changes. */
  lemma CreateSuccess(
    events: map<Id, Event>, sections: map<Id, Section>, tickets: map<Id, Ticket>, orders: map<Id, Order>,
    orderItems: seq<OrderItem>, nextId: Id, caller: Option<Id>, form: EventForm, json: SectionsJson, now: int, k: nat)
    requires TablesValid(events, sections, tickets, orders, orderItems, nextId)
    requires Create(events, sections, tickets, nextId, caller, form, json, now).response.success
    requires k < |json.list|
    ensures var e := Create(events, sections, tickets, nextId, caller, form, json, now);
            var input := json.list[k];
            var sid := NextAfter(nextId + 1, json.list[..k]);
            && e.response.data.Some? && e.response.data.value.id == nextId && nextId !in events
            && e.events == events[nextId := e.response.data.value.event]
            && e.response.data.value.event
                 == Event(form.name, form.description, form.eventDate.value, form.eventTime, form.venue, caller.value, now)
            && sid !in sections && sid in e.sections
            && e.sections[sid] == Section(nextId, input.sectionName, input.price, input.totalSeats)
            && CalculateAvailableSeats(e.tickets, sid) == TicketCount(input.totalSeats)
            && (forall id :: id in e.tickets && e.tickets[id].sectionId == sid ==> e.tickets[id].status == Available)
            && (forall id :: id in tickets ==> id in e.tickets && e.tickets[id] == tickets[id])
            && (forall id :: id in sections ==> id in e.sections && e.sections[id] == sections[id])
  {
    CreateRefusals(events, sections, tickets, nextId, caller, form, json, now);
    var inputs := json.list;
    assert forall id :: id in tickets ==> id < nextId + 1 && tickets[id].sectionId < nextId + 1 by {
      forall id | id in tickets ensures tickets[id].sectionId < nextId + 1 {
        assert TicketValid(tickets[id], sections, orders);
      }
    }
    assert inputs[k].totalSeats <= MaxSeatsPerSection;
    AddSectionsExtends(sections, nextId, nextId + 1, inputs);
    SeatLabelsWithin();
    AddTicketsExtends(tickets, nextId, nextId + 1, inputs, SeatLabelsFor);
    AddedSection(sections, nextId, nextId + 1, inputs, k);
    ProvisionedAvailability(tickets, nextId, nextId + 1, inputs, k);
    NextAfterPrefix(nextId + 1, inputs, k);
  }

  /** A new event under the next free key keeps the tables valid. */
  lemma AddEventValid(
    events: map<Id, Event>, sections: map<Id, Section>, tickets: map<Id, Ticket>, orders: map<Id, Order>,
    orderItems: seq<OrderItem>, nextId: Id, event: Event)
    requires TablesValid(events, sections, tickets, orders, orderItems, nextId)
    ensures TablesValid(events[nextId := event], sections, tickets, orders, orderItems, nextId + 1)
  {
  }

  /** Creating an event keeps the tables valid. */
  lemma CreatePreservesValid(
    events: map<Id, Event>, sections: map<Id, Section>, tickets: map<Id, Ticket>, orders: map<Id, Order>,
    orderItems: seq<OrderItem>, nextId: Id, caller: Option<Id>, form: EventForm, json: SectionsJson, now: int)
    requires TablesValid(events, sections, tickets, orders, orderItems, nextId)
    ensures var e := Create(events, sections, tickets, nextId, caller, form, json, now);
            TablesValid(e.events, e.sections, e.tickets, orders, orderItems, e.nextId)
  {
    CreateRefusals(events, sections, tickets, nextId, caller, form, json, now);
    if caller.Some? && FieldsPresent(form) && json.Parsed? && json.list != [] && Fits(json.list) {
      var event := Event(form.name, form.description, form.eventDate.value, form.eventTime, form.venue, caller.value, now);
      AddEventValid(events, sections, tickets, orders, orderItems, nextId, event);
      SeatLabelsWithin();
      ProvisionValid(events[nextId := event], sections, tickets, orders, orderItems, nextId, nextId + 1, json.list,
                     SeatLabelsFor);
    }
  }

  /** The inner loop of the transaction: one ticket per seat number, each
      under the next id. */
  method InsertSeatTickets(db: Database, eventId: Id, sectionId: Id, seatNumbers: seq<string>)
    requires db.nextId == sectionId + 1
    modifies db`tickets, db`nextId
    ensures db.tickets == InsertTickets(old(db.tickets), eventId, sectionId, sectionId + 1, seatNumbers)
    ensures db.nextId == sectionId + 1 + |seatNumbers|
  {
    var before := db.tickets;
    for i := 0 to |seatNumbers|
      invariant db.tickets == InsertTickets(before, eventId, sectionId, sectionId + 1, seatNumbers[..i])
      invariant db.nextId == sectionId + 1 + i
    {
      InsertTicketsStep(before, eventId, sectionId, sectionId + 1, seatNumbers, i);
      db.tickets := db.tickets[db.nextId := NewTicket(eventId, sectionId, seatNumbers[i])];
      db.nextId := db.nextId + 1;
    }
    assert seatNumbers[..|seatNumbers|] == seatNumbers;
  }

  /** One pass of the transaction's loop: the section row under the next id,
      then its seats. */
  method ProvisionSection(db: Database, eventId: Id, input: SectionInput)
    requires input.totalSeats <= MaxSeatsPerSection
    modifies db`sections, db`tickets, db`nextId
    ensures db.sections == old(db.sections)[old(db.nextId) := Section(eventId, input.sectionName, input.price, input.totalSeats)]
    ensures db.tickets == InsertTickets(old(db.tickets), eventId, old(db.nextId), old(db.nextId) + 1, SeatLabelsFor(input.totalSeats))
    ensures db.nextId == old(db.nextId) + 1 + TicketCount(input.totalSeats)
  {
    var sectionId := db.nextId;
    db.sections := db.sections[sectionId := Section(eventId, input.sectionName, input.price, input.totalSeats)];
    db.nextId := db.nextId + 1;
    var seatNumbers := GenerateSeatNumbers(input.totalSeats);
    SeatCount(input.totalSeats);
    assert seatNumbers == SeatLabelsFor(input.totalSeats);
    InsertSeatTickets(db, eventId, sectionId, seatNumbers);
  }

  /** Section `k` provisioned after the first `k`. */
  method ProvisionNext(db: Database, eventId: Id, sections0: map<Id, Section>, tickets0: map<Id, Ticket>,
                       inputs: seq<SectionInput>, k: nat)
    requires k < |inputs| && inputs[k].totalSeats <= MaxSeatsPerSection
    requires db.sections == AddSections(sections0, eventId, eventId + 1, inputs[..k])
    requires db.tickets == AddTickets(tickets0, eventId, eventId + 1, inputs[..k], SeatLabelsFor)
    requires db.nextId == NextAfter(eventId + 1, inputs[..k])
    modifies db`sections, db`tickets, db`nextId
    ensures db.sections == AddSections(sections0, eventId, eventId + 1, inputs[..k + 1])
    ensures db.tickets == AddTickets(tickets0, eventId, eventId + 1, inputs[..k + 1], SeatLabelsFor)
    ensures db.nextId == NextAfter(eventId + 1, inputs[..k + 1])
  {
    ghost var sid, sectionsBefore, ticketsBefore := db.nextId, db.sections, db.tickets;
    ProvisionSection(db, eventId, inputs[k]);
    ProvisionStep(sections0, tickets0, eventId, eventId + 1, inputs, k,
                  sid, sectionsBefore, ticketsBefore, db.sections, db.tickets, db.nextId);
  }

  /** The loop of the transaction: each section row and its tickets, in
      order. It stops at the first section that cannot be labelled, leaving
      what it inserted so far for the rollback. */
  method ProvisionSections(db: Database, eventId: Id, inputs: seq<SectionInput>) returns (fits: bool)
    requires db.nextId == eventId + 1
    modifies db`sections, db`tickets, db`nextId
    ensures fits == Fits(inputs)
    ensures fits ==>
              && db.sections == AddSections(old(db.sections), eventId, eventId + 1, inputs)
              && db.tickets == AddTickets(old(db.tickets), eventId, eventId + 1, inputs, SeatLabelsFor)
              && db.nextId == NextAfter(eventId + 1, inputs)
  {
    var sections0, tickets0 := db.sections, db.tickets;
    for k := 0 to |inputs|
      invariant Fits(inputs[..k])
      invariant db.sections == AddSections(sections0, eventId, eventId + 1, inputs[..k])
      invariant db.tickets == AddTickets(tickets0, eventId, eventId + 1, inputs[..k], SeatLabelsFor)
      invariant db.nextId == NextAfter(eventId + 1, inputs[..k])
    {
      if inputs[k].totalSeats > MaxSeatsPerSection {
        assert !Fits(inputs);
        return false;
      }
      FitsStep(inputs, k);
      ProvisionNext(db, eventId, sections0, tickets0, inputs, k);
    }
    assert inputs[..|inputs|] == inputs;
    return true;
  }

  /** The transaction of `createEvent`: the event row under the next id, then
      the sections and their tickets. When a section cannot be labelled every
      table is rolled back and the transaction reports failure. */
  method RunCreateTransaction(db: Database, event: Event, inputs: seq<SectionInput>) returns (committed: bool)
    modifies db`events, db`sections, db`tickets, db`nextId
    ensures committed == Fits(inputs)
    ensures committed ==>
              && db.events == old(db.events)[old(db.nextId) := event]
              && db.sections == AddSections(old(db.sections), old(db.nextId), old(db.nextId) + 1, inputs)
              && db.tickets == AddTickets(old(db.tickets), old(db.nextId), old(db.nextId) + 1, inputs, SeatLabelsFor)
              && db.nextId == NextAfter(old(db.nextId) + 1, inputs)
    ensures !committed ==>
              db.events == old(db.events) && db.sections == old(db.sections) && db.tickets == old(db.tickets)
              && db.nextId == old(db.nextId)
  {
    var events0, sections0, tickets0, next0 := db.events, db.sections, db.tickets, db.nextId;
    db.events := db.events[next0 := event];
    db.nextId := next0 + 1;
    committed := ProvisionSections(db, next0, inputs);
    if !committed {
      db.events, db.sections, db.tickets, db.nextId := events0, sections0, tickets0, next0;
    }
  }

  /** `createEvent`: the checks, then one transaction that inserts the event,
      and for each section its row and one ticket per generated seat label.
      A failing insert rolls every table back. */
  method CreateEvent(db: Database, caller: Option<Id>, form: EventForm, json: SectionsJson, now: int)
    returns (resp: ApiResponse<EventRow>)
    requires db.Valid()
    modifies db`events, db`sections, db`tickets, db`nextId
    ensures db.Valid()
    ensures var e := Create(old(db.events), old(db.sections), old(db.tickets), old(db.nextId), caller, form, json, now);
            && db.events == e.events && db.sections == e.sections && db.tickets == e.tickets
            && db.nextId == e.nextId && resp == e.response
  {
    ghost var e := Create(db.events, db.sections, db.tickets, db.nextId, caller, form, json, now);
    CreateRefusals(db.events, db.sections, db.tickets, db.nextId, caller, form, json, now);
    CreatePreservesValid(db.events, db.sections, db.tickets, db.orders, db.orderItems, db.nextId, caller, form, json, now);
    if caller.None? || json.Malformed? {
      return Fail(CreateFailedMsg);
    }
    if !FieldsPresent(form) {
      return Fail(AllFieldsRequiredMsg);
    }
    if json.Null? || |json.list| == 0 {
      return Fail(NoSectionsMsg);
    }
    var eventId := db.nextId;
    var event := Event(form.name, form.description, form.eventDate.value, form.eventTime, form.venue, caller.value, now);
    var committed := RunCreateTransaction(db, event, json.list);
    if !committed {
      return Fail(CreateFailedMsg);
    }
    assert e.events == db.events && e.sections == db.sections && e.tickets == db.tickets && e.nextId == db.nextId;
    return Ok(EventRow(eventId, event));
  }

  // ---------------------------------------------------------------------------
  // updateEvent
  // ---------------------------------------------------------------------------

  /** The event with the form's five fields and a new update time. */
  function Edited(e: Event, form: EventForm, now: int): Event
    requires FieldsPresent(form)
  {
    e.(name := form.name, description := form.description, eventDate := form.eventDate.value,
       eventTime := form.eventTime, venue := form.venue, updatedAt := now)
  }

  /** `updateEvent(eventId, formData)` by an administrator or not. */
  function Update(events: map<Id, Event>, eventId: Id, admin: bool, form: EventForm, now: int)
    : (map<Id, Event>, ApiResponse<EventRow>)
  {
    if !admin then (events, Fail(UpdateFailedMsg))
    else if !FieldsPresent(form) then (events, Fail(AllFieldsRequiredMsg))
    else if eventId !in events then (events, Fail(EventNotFoundMsg))
    else
      var e := Edited(events[eventId], form, now);
      (events[eventId := e], Ok(EventRow(eventId, e)))
  }

  /** A refused update changes nothing and says why; an accepted one changes
      only the named event, and of it only the five fields and the update
      time, returning the new row. */
  lemma UpdateOutcomes(events: map<Id, Event>, eventId: Id, admin: bool, form: EventForm, now: int)
    ensures var (events', resp) := Update(events, eventId, admin, form, now);
            && (resp.success <==> admin && FieldsPresent(form) && eventId in events)
            && (!resp.success ==>
                  events' == events
                  && resp.error == Some(if !admin then UpdateFailedMsg
                                        else if !FieldsPresent(form) then AllFieldsRequiredMsg
                                        else EventNotFoundMsg))
            && (resp.success ==>
                  && events'.Keys == events.Keys
                  && (forall id :: id in events && id != eventId ==> events'[id] == events[id])
                  && var e := events'[eventId];
                  && e.name == form.name && e.description == form.description
                  && Some(e.eventDate) == form.eventDate && e.eventTime == form.eventTime
                  && e.venue == form.venue && e.updatedAt == now
                  && e.createdBy == events[eventId].createdBy
                  && resp.data == Some(EventRow(eventId, e)))
  {
  }

  /** Submitting the same edit twice gives the same table as once. */
  lemma UpdateIdempotent(events: map<Id, Event>, eventId: Id, admin: bool, form: EventForm, now: int)
    ensures var once := Update(events, eventId, admin, form, now).0;
            Update(once, eventId, admin, form, now).0 == once
  {
  }

  /** An edit keeps the tables valid: no key appears or disappears. */
  lemma UpdatePreservesValid(
    events: map<Id, Event>, sections: map<Id, Section>, tickets: map<Id, Ticket>, orders: map<Id, Order>,
    orderItems: seq<OrderItem>, nextId: Id, eventId: Id, admin: bool, form: EventForm, now: int)
    requires TablesValid(events, sections, tickets, orders, orderItems, nextId)
    ensures TablesValid(Update(events, eventId, admin, form, now).0, sections, tickets, orders, orderItems, nextId)
  {
    UpdateOutcomes(events, eventId, admin, form, now);
  }

  /** `updateEvent` */
  method UpdateEvent(db: Database, eventId: Id, admin: bool, form: EventForm, now: int)
    returns (resp: ApiResponse<EventRow>)
    requires db.Valid()
    modifies db`events
    ensures db.Valid()
    ensures (db.events, resp) == Update(old(db.events), eventId, admin, form, now)
  {
    UpdatePreservesValid(db.events, db.sections, db.tickets, db.orders, db.orderItems, db.nextId, eventId, admin, form, now);
    if !admin {
      return Fail(UpdateFailedMsg);
    }
    if !FieldsPresent(form) {
      return Fail(AllFieldsRequiredMsg);
    }
    if eventId !in db.events {
      return Fail(EventNotFoundMsg);
    }
    var e := Edited(db.events[eventId], form, now);
    db.events := db.events[eventId := e];
    return Ok(EventRow(eventId, e));
  }

  // ---------------------------------------------------------------------------
  // getEvents / getUpcomingEvents
  // ---------------------------------------------------------------------------

  /** `ORDER BY event_date ASC` */
  predicate DateOrder(a: EventRow, b: EventRow) {
    a.event.eventDate <= b.event.eventDate
  }

  /** `event_date >= CURRENT_DATE` when a first day is given. */
  predicate OnOrAfter(e: Event, from: Option<int>) {
    from.None? || e.eventDate >= from.value
  }

  /** The event rows from `from` on, each once, in date order. */
  method EventsByDate(db: Database, from: Option<int>) returns (rows: seq<EventRow>)
    ensures SortedBy(rows, DateOrder)
    ensures forall r :: r in rows ==> r.id in db.events && r.event == db.events[r.id] && OnOrAfter(r.event, from)
    ensures forall id :: id in db.events && OnOrAfter(db.events[id], from) ==> EventRow(id, db.events[id]) in rows
    ensures NoDuplicates(rows)
  {
    assert TotalPreorder(DateOrder);
    var pending := set id | id in db.events && OnOrAfter(db.events[id], from);
    rows := [];
    while pending != {}
      invariant SortedBy(rows, DateOrder)
      invariant forall id :: id in pending ==> id in db.events && OnOrAfter(db.events[id], from)
      invariant forall r :: r in rows ==> r.id in db.events && r.event == db.events[r.id] && OnOrAfter(r.event, from)
      invariant forall r :: r in rows ==> r.id !in pending
      invariant forall r :: r in rows ==> multiset(rows)[r] == 1
      invariant forall id :: id in db.events && OnOrAfter(db.events[id], from) ==>
                  id in pending || EventRow(id, db.events[id]) in rows
      decreases pending
    {
      var id :| id in pending;
      var row := EventRow(id, db.events[id]);
      InsertBySorted(rows, row, DateOrder);
      var rows' := InsertBy(rows, row, DateOrder);
      assert forall r :: r in rows' <==> r in rows || r == row by {
        assert forall r :: r in rows' <==> r in multiset(rows');
      }
      forall r | r in rows' ensures multiset(rows')[r] == 1 {
        if r == row {
          assert multiset(rows)[row] == 0;
        }
      }
      rows := rows';
      pending := pending - {id};
    }
    OnceEachNoDuplicates(rows);
  }

  /** `SELECT * FROM seating_sections WHERE event_id = $1`: the event's
      sections, each once, in no particular order. */
  method SectionsOf(db: Database, eventId: Id) returns (rows: seq<SectionRow>)
    ensures forall r :: r in rows ==> r.id in db.sections && r.section == db.sections[r.id] && r.section.eventId == eventId
    ensures forall id :: id in db.sections && db.sections[id].eventId == eventId ==> SectionRow(id, db.sections[id]) in rows
    ensures NoDuplicates(rows)
  {
    var pending := set id | id in db.sections && db.sections[id].eventId == eventId;
    rows := [];
    while pending != {}
      invariant forall id :: id in pending ==> id in db.sections && db.sections[id].eventId == eventId
      invariant forall r :: r in rows ==> r.id in db.sections && r.section == db.sections[r.id] && r.section.eventId == eventId
      invariant forall r :: r in rows ==> r.id !in pending
      invariant NoDuplicates(rows)
      invariant forall id :: id in db.sections && db.sections[id].eventId == eventId ==>
                  id in pending || SectionRow(id, db.sections[id]) in rows
      decreases pending
    {
      var id :| id in pending;
      rows := rows + [SectionRow(id, db.sections[id])];
      pending := pending - {id};
    }
  }

  /** An event with its sections and their availability (`EventWithSections`). */
  datatype EventWithSections = EventWithSections(row: EventRow, sections: seq<SectionWithAvailability>)

  /** `sections` lists each section of the event once, with its row and its
      current count of available seats. */
  predicate ListsSections(
    sections: map<Id, Section>, tickets: map<Id, Ticket>, eventId: Id, list: seq<SectionWithAvailability>)
  {
    && (forall j :: 0 <= j < |list| ==>
          && list[j].id in sections && list[j].section == sections[list[j].id]
          && list[j].section.eventId == eventId
          && list[j].availableSeats == CalculateAvailableSeats(tickets, list[j].id))
    && (forall id :: id in sections && sections[id].eventId == eventId ==>
          exists j :: 0 <= j < |list| && list[j].id == id)
    && (forall i, j :: 0 <= i < j < |list| ==> list[i].id != list[j].id)
  }

  /** The loop that attaches to each event row its sections with availability. */
  method WithSections(db: Database, rows: seq<EventRow>) returns (out: seq<EventWithSections>)
    ensures |out| == |rows|
    ensures forall k :: 0 <= k < |out| ==>
              out[k].row == rows[k] && ListsSections(db.sections, db.tickets, rows[k].id, out[k].sections)
  {
    out := [];
    for k := 0 to |rows|
      invariant |out| == k
      invariant forall m :: 0 <= m < k ==>
                  out[m].row == rows[m] && ListsSections(db.sections, db.tickets, rows[m].id, out[m].sections)
    {
      var sectionRows := SectionsOf(db, rows[k].id);
      var enriched := EnrichSectionsWithAvailability(db, sectionRows);
      forall id | id in db.sections && db.sections[id].eventId == rows[k].id
        ensures exists j :: 0 <= j < |enriched| && enriched[j].id == id
      {
        var j :| 0 <= j < |sectionRows| && sectionRows[j] == SectionRow(id, db.sections[id]);
        assert enriched[j].id == id;
      }
      forall i, j | 0 <= i < j < |enriched| ensures enriched[i].id != enriched[j].id {
        assert sectionRows[i] != sectionRows[j];
        assert sectionRows[i].section == db.sections[sectionRows[i].id];
      }
      out := out + [EventWithSections(rows[k], enriched)];
    }
  }

  /** `getEvents()`: every event, in date order, with its sections. */
  method GetEvents(db: Database) returns (out: seq<EventWithSections>)
    ensures forall k :: 0 <= k < |out| ==>
              && out[k].row.id in db.events && out[k].row.event == db.events[out[k].row.id]
              && ListsSections(db.sections, db.tickets, out[k].row.id, out[k].sections)
    ensures forall id :: id in db.events ==> exists k :: 0 <= k < |out| && out[k].row.id == id
    ensures forall i, j :: 0 <= i < j < |out| ==> out[i].row.event.eventDate <= out[j].row.event.eventDate
    ensures forall i, j :: 0 <= i < j < |out| ==> out[i].row.id != out[j].row.id
  {
    var rows := EventsByDate(db, None);
    out := WithSections(db, rows);
    forall id | id in db.events ensures exists k :: 0 <= k < |out| && out[k].row.id == id {
      var k :| 0 <= k < |rows| && rows[k] == EventRow(id, db.events[id]);
      assert out[k].row.id == id;
    }
    forall i, j | 0 <= i < j < |out| ensures out[i].row.id != out[j].row.id {
      assert rows[i] != rows[j];
    }
  }

  /** `WHERE event_date >= CURRENT_DATE ORDER BY event_date ASC LIMIT 10`:
      the earliest upcoming event rows, each once; an upcoming event is left
      out only when ten rows at least as early are listed. */
  method UpcomingRows(db: Database, today: int) returns (rows: seq<EventRow>)
    ensures |rows| <= UpcomingLimit
    ensures forall r :: r in rows ==> r.id in db.events && r.event == db.events[r.id] && r.event.eventDate >= today
    ensures SortedBy(rows, DateOrder)
    ensures NoDuplicates(rows)
    ensures forall id :: id in db.events && db.events[id].eventDate >= today ==>
              EventRow(id, db.events[id]) in rows
              || (|rows| == UpcomingLimit && forall r :: r in rows ==> r.event.eventDate <= db.events[id].eventDate)
  {
    var all := EventsByDate(db, Some(today));
    rows := if |all| > UpcomingLimit then all[..UpcomingLimit] else all;
    assert forall i :: 0 <= i < |rows| ==> rows[i] == all[i];
    forall id | id in db.events && db.events[id].eventDate >= today && EventRow(id, db.events[id]) !in rows
      ensures |rows| == UpcomingLimit && forall r :: r in rows ==> r.event.eventDate <= db.events[id].eventDate
    {
      var m :| 0 <= m < |all| && all[m] == EventRow(id, db.events[id]);
      forall r | r in rows ensures r.event.eventDate <= db.events[id].eventDate {
        var k :| 0 <= k < |rows| && rows[k] == r;
        assert all[k] == r;
      }
    }
  }

  /** The guarantees of `UpcomingRows`, stated position by position. */
  lemma UpcomingByIndex(events: map<Id, Event>, today: int, rows: seq<EventRow>)
    requires forall r :: r in rows ==> r.id in events && r.event == events[r.id] && r.event.eventDate >= today
    requires SortedBy(rows, DateOrder) && NoDuplicates(rows)
    requires forall id :: id in events && events[id].eventDate >= today ==>
               EventRow(id, events[id]) in rows
               || (|rows| == UpcomingLimit && forall r :: r in rows ==> r.event.eventDate <= events[id].eventDate)
    ensures forall k :: 0 <= k < |rows| ==>
              rows[k].id in events && rows[k].event == events[rows[k].id] && rows[k].event.eventDate >= today
    ensures forall i, j :: 0 <= i < j < |rows| ==> rows[i].event.eventDate <= rows[j].event.eventDate
    ensures forall i, j :: 0 <= i < j < |rows| ==> rows[i].id != rows[j].id
    ensures forall id :: id in events && events[id].eventDate >= today ==>
              (exists k :: 0 <= k < |rows| && rows[k].id == id)
              || (|rows| == UpcomingLimit && forall k :: 0 <= k < |rows| ==> rows[k].event.eventDate <= events[id].eventDate)
  {
    forall k | 0 <= k < |rows|
      ensures rows[k].id in events && rows[k].event == events[rows[k].id] && rows[k].event.eventDate >= today
    {
      assert rows[k] in rows;
    }
    forall i, j | 0 <= i < j < |rows| ensures rows[i].event.eventDate <= rows[j].event.eventDate {
      assert DateOrder(rows[i], rows[j]);
    }
    forall i, j | 0 <= i < j < |rows| ensures rows[i].id != rows[j].id {
      assert rows[i] in rows && rows[j] in rows;
    }
    forall id | id in events && events[id].eventDate >= today
      ensures (exists k :: 0 <= k < |rows| && rows[k].id == id)
              || (|rows| == UpcomingLimit && forall k :: 0 <= k < |rows| ==> rows[k].event.eventDate <= events[id].eventDate)
    {
      if EventRow(id, events[id]) in rows {
        var k :| 0 <= k < |rows| && rows[k] == EventRow(id, events[id]);
        assert rows[k].id == id;
      } else {
        forall k | 0 <= k < |rows| ensures rows[k].event.eventDate <= events[id].eventDate {
          assert rows[k] in rows;
        }
      }
    }
  }

  /** `getUpcomingEvents(today)`: the upcoming event rows, each with its
      sections and their availability. */
  method GetUpcomingEvents(db: Database, today: int) returns (out: seq<EventWithSections>)
    ensures |out| <= UpcomingLimit
    ensures forall k :: 0 <= k < |out| ==>
              && out[k].row.id in db.events && out[k].row.event == db.events[out[k].row.id]
              && out[k].row.event.eventDate >= today
              && ListsSections(db.sections, db.tickets, out[k].row.id, out[k].sections)
    ensures forall i, j :: 0 <= i < j < |out| ==> out[i].row.event.eventDate <= out[j].row.event.eventDate
    ensures forall i, j :: 0 <= i < j < |out| ==> out[i].row.id != out[j].row.id
    ensures forall id :: id in db.events && db.events[id].eventDate >= today ==>
              (exists k :: 0 <= k < |out| && out[k].row.id == id)
              || (|out| == UpcomingLimit &&
                  forall k :: 0 <= k < |out| ==> out[k].row.event.eventDate <= db.events[id].eventDate)
  {
    var rows := UpcomingRows(db, today);
    UpcomingByIndex(db.events, today, rows);
    out := WithSections(db, rows);
    forall id | id in db.events && db.events[id].eventDate >= today && exists k :: 0 <= k < |rows| && rows[k].id == id
      ensures exists k :: 0 <= k < |out| && out[k].row.id == id
    {
      var k :| 0 <= k < |rows| && rows[k].id == id;
      assert out[k].row.id == id;
    }
  }
}
