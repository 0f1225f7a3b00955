# Ticket-test seat inventory, in Dafny

This project models the seat-inventory engine of the ticket-test web
application and proves properties of the model. The parts modelled are:

- **The ticket store.** It has tables for events, seating sections, tickets,
  orders and order items, held by one `Store.Database` object. Rows get their
  keys from a single counter. `Store.TablesValid` states the integrity the
  operations keep:
  - every foreign key resolves, and each seat's section belongs to the
    seat's own event;
  - every key lies below the counter;
  - each ticket's owner, hold time and order agree with its status.
- **The server actions on seats** (`TicketActions`):
  - reserving seats is a conditional claim of each seat;
  - purchasing is all or nothing, and creates one order with its lines;
  - cancelling is all or nothing;
  - listing a section's seats is sorted by seat number.

  Each action is a method on the database. It is proved equal to a pure
  function over the tables (`Reserve`, `Purchase`, `Cancel`), and the lemmas
  state what those functions do.
- **Availability counting** (`SeatCalculations`): per section, in bulk, and
  attached to section records.
- **Event administration** (`EventActions`):
  - creating an event provisions its sections and one ticket per generated
    seat label, in one transaction that commits everything or nothing;
  - editing an event;
  - listing events, and listing the upcoming ones.
- **Seat labels and time display** (`Utils`): `generateSeatNumbers` and
  `formatTime`.
- **The client-side selection state.** There are two variants: a 10-second
  hold (`SeatSelectionHook`) and a 5-minute hold
  (`TicketingSeatSelectionHook`). Each is a class whose fields are the hook's
  state. Each handler is a method that takes the server's answer as a
  parameter. The hold window is the class's `holdMs` field.
- **Form validation:**
  - the hand-written validators (`Validations`);
  - the schema validators of the admin forms (`AdminValidations`), stated as
    acceptance predicates over lists of checks.
- **The reservation countdown** (`ReservationTimer`).

Supporting modules:
- `Common`: `Option`, the `ApiResponse` record, and sequence facts.
- `Text`: decimal numerals, `trim`, and code-point order.
- `Sorting`: insertion by a total preorder.

Conventions:
- Time is an integer number of milliseconds, passed in as `now`.
- Dates are integers, passed in already parsed.
- Prices are integer cents, except in the schema validators, which take the
  form's numbers as reals.

## Model

| member | source | states |
|---|---|---|
| Store.TicketKeysResolve | ticketing-system/actions/event-actions.ts:115-133 | In valid tables every seat's event exists, its section exists and belongs to that same event, and a sold seat's order exists. |
| TicketActions.ClaimEach | actions/ticket-actions.ts:61-100 | The claim loop keeps the table's keys. It returns a duplicate-free subsequence of the requested ids, holding exactly the requested known ids that were claimable. Claimed seats become reserved by the user at `now`; every other seat is unchanged. |
| TicketActions.ReserveTickets | actions/ticket-actions.ts:36-133 | The method leaves the tables valid. Its new tickets table and its response are those of `Reserve` on the old table. |
| TicketActions.ReserveRefusal | actions/ticket-actions.ts:43-55 | A caller other than the user gets 'Unauthorized'. An empty list gets 'No tickets selected'. In both cases no ticket changes. |
| TicketActions.ReserveOutcomes | actions/ticket-actions.ts:105-125 | Success holds iff some requested known seat was claimable. On success the data is the claimed ids. With no claim, nothing changes and the error is the 'no longer available' message. Fewer claims than requested give the 'Only k of n' message; all claimed gives no message. |
| TicketActions.ReservePreservesValid | actions/ticket-actions.ts:68-99 | A reservation keeps the tables valid. |
| TicketActions.NoDoubleHold | actions/ticket-actions.ts:68-99 | A seat just claimed by buyer A, still within the hold window, stays A's: a second buyer's reservation neither changes it nor returns it. |
| TicketActions.StaleHoldIsEvictable | actions/ticket-actions.ts:85-86 | A reserved seat whose hold is older than the window is claimed by whoever requests it. |
| TicketActions.Loaded | actions/ticket-actions.ts:148-159 | The loaded rows are the requested ids that exist, each once. If no requested id exists, nothing is loaded. |
| TicketActions.FirstFailure | actions/ticket-actions.ts:161-172 | The loop's result is absent iff every check passed; otherwise it is one of the failed messages. |
| TicketActions.FirstFailureAt | actions/ticket-actions.ts:161-172 | The first failing check decides the message. |
| TicketActions.CheckHolds | actions/ticket-actions.ts:161-172 | The check loop returns the first failing check's message. |
| TicketActions.SumPrices | actions/ticket-actions.ts:174-175 | The loop sums the loaded tickets' section prices into the order total. |
| TicketActions.OrderLines | actions/ticket-actions.ts:195-202 | The insert loop makes one order item per loaded ticket, at its price. |
| TicketActions.OrderTotalIsItemsTotal | actions/ticket-actions.ts:174-204 | The order's total equals the sum of its order items' prices. |
| TicketActions.CommitSale | actions/ticket-actions.ts:177-204 | The sale inserts the order under the next key (completed, the caller's, with the total). It sells every requested ticket to that order and appends the order lines. The tables stay valid. |
| TicketActions.PurchaseTickets | actions/ticket-actions.ts:135-220 | The method leaves the tables valid. Its tables and response are those of `Purchase`. The key counter advances only on success. |
| TicketActions.PurchaseOutcomes | actions/ticket-actions.ts:148-172 | Success holds iff every requested existing seat passes the checks. On failure no ticket, order or item changes, and the error is the failed check of some requested seat. |
| TicketActions.PurchaseSale | actions/ticket-actions.ts:174-204 | On success the response carries the order id. Requested seats are sold to the order and others are unchanged. The order is the caller's and completed, other orders are unchanged, and the old items are kept. The appended items are one per loaded seat, and their sum is the order total. |
| TicketActions.OrderLinesCoverLoaded | actions/ticket-actions.ts:195-202 | Each order item names the order and a requested existing seat at its section's price. Every such seat has exactly one item. The items sum to the total. |
| TicketActions.PurchasedSeatsWereHeld | actions/ticket-actions.ts:162-172 | When the checks pass, every requested existing seat is reserved by the caller with a fresh hold. |
| TicketActions.PurchaseIsAllOrNothing | actions/ticket-actions.ts:162-168 | One requested seat the caller does not hold, or that is not reserved, makes the purchase fail and change nothing. |
| TicketActions.ExpiredHoldCannotBePurchased | actions/ticket-actions.ts:169-171 | A requested seat whose hold is older than the window makes the purchase fail and change nothing. |
| TicketActions.PurchaseOfUnknownTickets | actions/ticket-actions.ts:141-204 | A request made only of unknown ids succeeds with an empty completed order of total 0 and sells nothing. |
| TicketActions.PurchaseRefusal | actions/ticket-actions.ts:141-146 | An empty request is refused with 'No tickets to purchase'; tickets, orders and order items are unchanged (with `PurchaseTickets`, the key counter too). |
| TicketActions.PurchasePreservesValid | actions/ticket-actions.ts:174-204 | A purchase keeps the tables valid. |
| TicketActions.SaleKeepsTablesValid | actions/ticket-actions.ts:178-204 | Selling held seats to a new order with lines naming it keeps the tables valid. |
| TicketActions.CheckCancellable | actions/ticket-actions.ts:252-259 | The check loop returns the first failing check's message. |
| TicketActions.CancelReservation | actions/ticket-actions.ts:222-282 | The method leaves the tables valid. Its new table and response are those of `Cancel`. |
| TicketActions.CancelOutcomes | actions/ticket-actions.ts:229-266 | Success holds iff every requested existing seat is reserved by the user. On success the response is plain success, requested seats are released and the rest are unchanged. On failure nothing changes and the error is a failed check. |
| TicketActions.CancelRefusal | actions/ticket-actions.ts:229-241 | A caller other than the user gets 'Unauthorized'; otherwise an empty request gets 'No tickets to cancel'. Either way no ticket changes. |
| TicketActions.CancelPreservesValid | actions/ticket-actions.ts:262-267 | A cancellation keeps the tables valid. |
| TicketActions.CancelTwiceFails | actions/ticket-actions.ts:252-255 | After a successful cancel, cancelling the same seats again fails with 'You do not own all selected tickets' and changes nothing. |
| TicketActions.CancelUndoesReserve | actions/ticket-actions.ts:68-99 | Suppose every requested seat was available and the reservation succeeded. Then cancelling the returned ids gives back the original tickets table. |
| TicketActions.CancelRestoresClaimed | actions/ticket-actions.ts:262-267 | Cancelling seats that were just claimed from available ones restores them exactly. |
| TicketActions.ReleaseUndoesClaim | actions/ticket-actions.ts:262-267 | Releasing a claimed, previously available seat gives back the seat. |
| TicketActions.SoldTicketIsFinal | actions/ticket-actions.ts:85-86 | A sold seat is unchanged by any reservation, purchase or cancellation. |
| TicketActions.SeatOrderIsTotalPreorder | actions/ticket-actions.ts:25 | Ordering by seat number is a total preorder. |
| TicketActions.GetAllSeats | actions/ticket-actions.ts:14-34 | The rows are every ticket of the event's section, each once with its key, sorted by seat number. |
| SeatCalculations.AvailableCountIsStoredStatus | lib/seat-calculations.ts:17-26 | A seat counts iff its stored status is available. A reserved seat, even with a stale hold, does not count. |
| SeatCalculations.CountUnaffectedElsewhere | lib/seat-calculations.ts:17-26 | Changing a ticket outside the section, or without touching its status or section, leaves the count as it was. |
| SeatCalculations.AvailabilityAfterReserve | lib/seat-calculations.ts:17-26 | A reservation removes exactly the claimed seats from the section's available set. |
| SeatCalculations.AvailabilityAfterCancel | lib/seat-calculations.ts:17-26 | A successful cancel adds exactly the released seats of the section. |
| SeatCalculations.AvailabilityAfterPurchase | lib/seat-calculations.ts:17-26 | A purchase never changes any section's available set. |
| SeatCalculations.SellingHeldSeatsKeepsCount | lib/seat-calculations.ts:17-26 | Selling reserved seats leaves the available set unchanged. |
| SeatCalculations.GroupedCounts | lib/seat-calculations.ts:41-47 | The grouped query yields exactly the requested sections with a positive count, each with its count. |
| SeatCalculations.CalculateAvailableSeatsBulk | lib/seat-calculations.ts:34-63 | The result's keys are exactly the input ids (empty for empty input; duplicates give one key). Each value is that section's count, which is 0 when nothing is available. |
| SeatCalculations.EnrichSectionsWithAvailability | lib/seat-calculations.ts:71-85 | Same length and order, each section's fields kept, each given its section's count. |
| Utils.Labels | lib/utils.ts:33-47 | There are k labels for the first k seats. |
| Utils.LabelAt | lib/utils.ts:37-44 | Place i of the labels holds seat i's label, in row-major order. |
| Utils.GenerateSeatNumbers | lib/utils.ts:33-47 | The nested loops produce the labels of the first `max(n, 0)` seats. |
| Utils.CeilDiv10Bounds | lib/utils.ts:35 | `ceil(n / 10)` rows hold n seats, ten to a row, the last row non-empty. There are no rows for n ≤ 0. |
| Utils.NextLabel | lib/utils.ts:41-42 | Seat s of row r extends the labels by the row letter followed by s. |
| Utils.SeatCount | lib/utils.ts:33-47 | There are exactly n labels for n ≥ 0 and none for n ≤ 0. |
| Utils.SeatLabelsDistinct | lib/utils.ts:38-42 | Different seats have different labels. |
| Utils.LabelsDistinct | lib/utils.ts:38-42 | The generated labels have no repeats. |
| Utils.RowSizes | lib/utils.ts:35-39 | Row r holds places `10r` to `10r + min(10, n - 10r)`, all with its letter. Every row but the last has 10 seats. |
| Utils.LongestPrefix | lib/utils.ts:27 | The prefix that `parseInt` reads is the longest one of digits. |
| Utils.IndexOf | lib/utils.ts:26 | The first index of a character, or its absence. |
| Utils.TruncRem | lib/utils.ts:29 | JavaScript's `%`: `a == b * q + r` with the quotient `q` truncated toward zero, so `0 <= r < b` for a non-negative dividend and `-b < r <= 0` for a negative one; on non-negative dividends it agrees with Dafny's `%`. |
| Utils.FormatTimeMeridiem | lib/utils.ts:24-31 | The result ends in "PM" iff the parsed hour is at least 12. |
| Utils.DisplayHourRange | lib/utils.ts:29 | A non-negative hour shows as 1..12. It is 12 iff the hour is 0 mod 12, and otherwise the hour mod 12. |
| Utils.ParseIntDigits | lib/utils.ts:27 | `parseInt` of a digit string is its decimal value. |
| Utils.SplitHoursMinutes | lib/utils.ts:26 | Splitting "hh:mm" at ':' gives the two parts. |
| Utils.TwelveHourRoundTrip | lib/utils.ts:28-29 | The display hour and the suffix give back the hour of the day. |
| Utils.FormatTimeOfClockTime | lib/utils.ts:24-31 | For "HH:MM" with an hour of the day, the hour is shown on the 12-hour clock, the minutes are copied verbatim, and the suffix is appended. |
| SeatSelectionHook.ShownStatusCases | hooks/use-seat-selection.ts:11-26 | Only a reserved seat with a hold older than the window is shown differently, and it is shown as available. 'sold' is never altered. |
| SeatSelectionHook.StatusMap | hooks/use-seat-selection.ts:11-26 | The map has one key per seat id. |
| SeatSelectionHook.StatusMapLookup | hooks/use-seat-selection.ts:11-26 | Each seat's entry is its shown status, unless a later row repeats its id. |
| SeatSelectionHook.BuildSeatStatusMap | hooks/use-seat-selection.ts:11-26 | The loop builds `StatusMap` for the hold window `holdMs`, a constructor parameter of each hook (10 000 ms in this hook's source, 300 000 ms in the ticketing hook's). |
| SeatSelectionHook.Toggle | hooks/use-seat-selection.ts:90-94 | The id is in the result iff it was not in the selection; other ids are unaffected. |
| SeatSelectionHook.ToggleKeepsNoDuplicates | hooks/use-seat-selection.ts:90-94 | A duplicate-free selection stays duplicate-free. |
| SeatSelectionHook.ToggleTwice | hooks/use-seat-selection.ts:90-94 | Toggling twice restores the selection as a multiset, and exactly when the seat was not selected. |
| SeatSelectionHook.ToggleLength | hooks/use-seat-selection.ts:90-94 | On a duplicate-free selection a toggle removes exactly one seat when the seat was selected and adds exactly one otherwise. |
| SeatSelectionHook.ToggleChangesTotal | hooks/use-seat-selection.ts:224-226 | After a toggle, `totalPrice` is the previous total plus one section price for an added seat, minus one for a removed seat. |
| SeatSelectionHook.SeatNumberOf | hooks/use-seat-selection.ts:124 | A seat number is found iff some loaded seat has the id. |
| SeatSelectionHook.FailedSeatNumbers | hooks/use-seat-selection.ts:122-125 | The result lists the seat numbers of requested ids missing from the result, and only those. |
| SeatSelectionHook.NoFailuresWhenAllReserved | hooks/use-seat-selection.ts:120-125 | When every requested id was reserved, no seat is reported as failed. |
| SeatSelectionHook.SeatSelection.constructor | hooks/use-seat-selection.ts:37-52 | The hook's initial state: everything is empty. |
| SeatSelectionHook.SeatSelection.LoadAllSeats | hooks/use-seat-selection.ts:61-74 | On success the error is cleared and the seats and their status map are stored. On failure 'Failed to load seats' is set. Nothing else changes. |
| SeatSelectionHook.SeatSelection.SelectSection | hooks/use-seat-selection.ts:54-74 | Selecting a section loads its seats. |
| SeatSelectionHook.SeatSelection.HandleSeatToggle | hooks/use-seat-selection.ts:76-95 | With reserved tickets the toggle is refused with an error. A seat not mapped 'available' is refused with an error. A refusal leaves the selection and `totalPrice` as they were. Otherwise the seat is toggled and `totalPrice` rises by the section price when the seat is added and falls by it when the seat is removed. |
| SeatSelectionHook.SeatSelection.HandleReserve | hooks/use-seat-selection.ts:97-164 | An empty selection sets an error and makes no call. On success: the returned ids become the reservation, expiring after the window; the selection is cleared, so `totalPrice` is 0, and `reservedTotalPrice` is the number of returned ids times the section price; a partial record is kept iff fewer seats came back; the seats reload. On failure the message or its fallback is shown. |
| SeatSelectionHook.SeatSelection.OnReservationExpired | hooks/use-seat-selection.ts:142-149 | On expiry the reservation, its expiry and the partial record are cleared and the seats reload. |
| SeatSelectionHook.SeatSelection.HandlePurchase | hooks/use-seat-selection.ts:166-189 | Without reserved tickets an error is set and no call is made. Otherwise the reserved ids are sent and a failure message is shown on failure. |
| SeatSelectionHook.SeatSelection.HandleCancelReservation | hooks/use-seat-selection.ts:191-222 | Without reserved tickets an error is set and no call is made. A successful cancel clears the reservation, its expiry and the partial record, and reloads the seats. A failed cancel keeps them. |
| TicketingSeatSelectionHook.SeatSelection.constructor | ticketing-system/hooks/use-seat-selection.ts:38-46 | The initial state: everything is empty. |
| TicketingSeatSelectionHook.SeatSelection.LoadAllSeats | ticketing-system/hooks/use-seat-selection.ts:55-68 | On success the seats and their status map for the hook's `holdMs` window (300 000 ms in its source); 'Failed to load seats' otherwise. |
| TicketingSeatSelectionHook.SeatSelection.SelectSection | ticketing-system/hooks/use-seat-selection.ts:48-68 | Selecting a section loads its seats. |
| TicketingSeatSelectionHook.SeatSelection.HandleSeatToggle | ticketing-system/hooks/use-seat-selection.ts:70-89 | The toggle is refused with an error while tickets are reserved or the seat is not 'available', leaving the selection and `totalPrice` unchanged. Otherwise the seat is toggled and `totalPrice` moves by one section price, up on add and down on remove. |
| TicketingSeatSelectionHook.SeatSelection.HandleReserve | ticketing-system/hooks/use-seat-selection.ts:91-132 | An empty selection sets an error and makes no call. On success the ids become the reservation and the selection is cleared, so `totalPrice` is 0 and `reservedTotalPrice` is the number of returned ids times the section price. On a partial reservation the server's message is set and then cleared by the seat refresh when a section is selected, and no expiry is scheduled, so the reservation stays in place on the client. |
| TicketingSeatSelectionHook.SeatSelection.OnReservationExpired | ticketing-system/hooks/use-seat-selection.ts:111-116 | On expiry the reservation is cleared and the seats reload. |
| TicketingSeatSelectionHook.SeatSelection.HandlePurchase | ticketing-system/hooks/use-seat-selection.ts:134-157 | Without reserved tickets an error is set and no call is made. Otherwise the ids are sent and a failure message is shown on failure. |
| EventActions.SeatLabelsFor | ticketing-system/actions/event-actions.ts:126-135 | A section gets at most as many labels as its seat count. |
| EventActions.NewTicket | ticketing-system/actions/event-actions.ts:126-135 | A provisioned ticket is available, ownerless and consistent. |
| EventActions.InsertTicketsContents | ticketing-system/actions/event-actions.ts:126-135 | The ticket loop adds consecutive keys, one per label, each an available ticket of the section with that label. Existing keys are kept. |
| EventActions.InsertTicketsStep | ticketing-system/actions/event-actions.ts:126-135 | One more pass of the ticket loop adds one ticket. |
| EventActions.InsertSeatTickets | ticketing-system/actions/event-actions.ts:126-135 | The insert loop adds the section's tickets under consecutive keys. |
| EventActions.ProvisionSection | ticketing-system/actions/event-actions.ts:104-135 | One pass of the section loop adds the section row under the next key, then its tickets. |
| EventActions.ProvisionNext | ticketing-system/actions/event-actions.ts:104-135 | Section k provisioned after the first k gives the state after the first k + 1. |
| EventActions.ProvisionStep | ticketing-system/actions/event-actions.ts:104-135 | One section's row and tickets extend the state of the earlier sections. |
| EventActions.ProvisionSections | ticketing-system/actions/event-actions.ts:104-136 | The section loop commits iff every section can be labelled, and then adds all sections and tickets. |
| EventActions.RunCreateTransaction | ticketing-system/actions/event-actions.ts:103-139 | The transaction inserts the event, its sections and its tickets, or rolls back to the tables as they were. |
| EventActions.CreateEvent | ticketing-system/actions/event-actions.ts:67-155 | The method leaves the tables valid. Its tables and response are those of `Create`. |
| EventActions.CreateRefusals | ticketing-system/actions/event-actions.ts:71-100 | Success holds iff there is a user, the fields are present, and the section list is parsed, non-empty and can be labelled. A refusal changes nothing. Its message follows the order of the checks: 'Failed to create event' when there is no user or the sections text does not parse; then 'All event fields are required'; then 'At least one seating section is required'; else 'Failed to create event'. |
| EventActions.CreateSuccess | ticketing-system/actions/event-actions.ts:103-139 | Creation adds one new event, the caller's, whose name, description, date, time and venue are the form's and whose update time is now. Each input section gets a new row with its name, price and seat count. Its tickets are all available, as many as the seat count. Existing rows are kept. |
| EventActions.CreatePreservesValid | ticketing-system/actions/event-actions.ts:103-139 | Creating an event keeps the tables valid. |
| EventActions.ProvisionValid | ticketing-system/actions/event-actions.ts:104-135 | The provisioned sections and tickets keep the tables valid. |
| EventActions.AddedSection | ticketing-system/actions/event-actions.ts:104-124 | Input section k gets its key and its name, price and seat count. |
| EventActions.AddedTickets | ticketing-system/actions/event-actions.ts:126-135 | Section k's tickets are exactly the keys after its own, one per label. |
| EventActions.ProvisionedAvailability | ticketing-system/actions/event-actions.ts:126-135 | A new section starts with as many available seats as its seat count, and no two share a label. |
| EventActions.HeldSectionAvailability | ticketing-system/actions/event-actions.ts:126-135 | A section holding one ticket per label counts all of them as available. |
| EventActions.AddSectionsExtends | ticketing-system/actions/event-actions.ts:104-124 | The section loop keeps existing sections and adds keys below the next free key. |
| EventActions.AddTicketsExtends | ticketing-system/actions/event-actions.ts:126-135 | The ticket loop keeps existing tickets and adds keys below the next free key. |
| EventActions.NextAfterPrefix | ticketing-system/actions/event-actions.ts:104-135 | Each later section's key lies after the earlier sections and their tickets. |
| EventActions.UpdateOutcomes | ticketing-system/actions/event-actions.ts:157-208 | A refusal changes nothing: a non-administrator gets 'Failed to update event', missing fields get 'All event fields are required', an unknown key gets 'Event not found'. Otherwise only the named event changes, and of it only the five fields and `updated_at`. |
| EventActions.UpdateIdempotent | ticketing-system/actions/event-actions.ts:178-191 | The same edit twice gives the same table as once. |
| EventActions.UpdatePreservesValid | ticketing-system/actions/event-actions.ts:178-191 | An edit keeps the tables valid. |
| EventActions.UpdateEvent | ticketing-system/actions/event-actions.ts:157-208 | The method's table and response are those of `Update`. |
| EventActions.EventsByDate | ticketing-system/actions/event-actions.ts:14-17 | The rows on or after a day are each given once, in date order. |
| EventActions.SectionsOf | ticketing-system/actions/event-actions.ts:21-24 | The sections of an event are each given once. |
| EventActions.WithSections | ticketing-system/actions/event-actions.ts:19-31 | Each event row is given its sections with their availability. |
| EventActions.GetEvents | ticketing-system/actions/event-actions.ts:12-37 | Every event is listed, once, in date order, with its sections. |
| EventActions.UpcomingRows | ticketing-system/actions/event-actions.ts:233-235 | At most 10 rows, each dated today or later, sorted, distinct. A missing upcoming event means 10 rows dated no later than it. |
| EventActions.GetUpcomingEvents | ticketing-system/actions/event-actions.ts:231-256 | At most 10 events, dated today or later, in ascending date order, distinct, with their sections. Every upcoming event not listed comes after a full page. |
| ReservationTimer.TimeLeftBounds | components/ui/reservation-timer.tsx:15-20 | The countdown is 0 once the expiry is reached. Before it, it is the whole seconds left. It is 0 iff less than a second remains. |
| ReservationTimer.TimeLeftNonIncreasing | components/ui/reservation-timer.tsx:15-20 | The countdown never rises as time passes. |
| ReservationTimer.MinutesSecondsSplit | components/ui/reservation-timer.tsx:40-41 | minutes·60 + seconds = timeLeft, with seconds < 60. |
| ReservationTimer.CountdownTextRoundTrip | components/ui/reservation-timer.tsx:52 | The text is the minutes, ':', and exactly two digits of seconds. It reads back to the time left. |
| ReservationTimer.UrgencyBands | components/ui/reservation-timer.tsx:44-48 | Red iff ≤ 3, orange iff 4..6, green iff ≥ 7. Urgency never relaxes as time passes. |
| Validations.ValidateEmailMatchesPattern | ticketing-system/lib/validations.ts:1-4 | The check accepts exactly the strings matching local@domain.tld with non-empty parts free of whitespace and '@'. |
| Validations.ValidEmailShape | ticketing-system/lib/validations.ts:1-4 | An accepted address has exactly one '@', not at either end, and no whitespace. |
| Validations.ContainsWhere | ticketing-system/lib/validations.ts:17-35 | True iff some character is in the class. |
| Validations.ValidatePassword | ticketing-system/lib/validations.ts:6-39 | Valid iff at least 8 long with an upper-case letter, a lower-case letter and a digit. The message is absent iff valid; otherwise it is the first failing check's, in the order length, upper, lower, digit. |
| Validations.BlankIsWhitespaceOnly | ticketing-system/lib/validations.ts:50 | `!s \|\| s.trim().length === 0` holds iff s is whitespace only. |
| Validations.ValidateEventForm | ticketing-system/lib/validations.ts:41-82 | Name, description and venue are flagged iff blank. The date is 'required' iff empty, else 'cannot be in the past' iff before today's midnight. The time is flagged iff empty. Valid iff no errors, iff all hold. |
| Validations.RemoveWhitespace | ticketing-system/lib/validations.ts:93 | Deleting whitespace leaves no whitespace, keeps every other character's count, and keeps their order. |
| Validations.ExpiryAcceptedThroughItsMonth | ticketing-system/lib/validations.ts:102-114 | A well-shaped expiry gets 'Invalid month' iff its month is outside 1..12. Otherwise it passes iff its month is not before the current month: a card is good through its expiry month. |
| Validations.ValidateCheckoutForm | ticketing-system/lib/validations.ts:84-125 | The card number is flagged unless it is 16 digits after deleting whitespace. The holder is flagged iff blank. The expiry gets its message against the year mod 100. The CVV is flagged unless it is 3–4 digits. Valid iff no errors, iff all pass. |
| AdminValidations.Issues | ticketing-system/lib/admin-validations.ts:6-66 | There is at most one issue per check, and none iff every check passes. |
| AdminValidations.LengthWindow | ticketing-system/lib/admin-validations.ts:7-54 | A list of min/max length checks passes iff the length lies between the tightest bounds. |
| AdminValidations.NameLengths | ticketing-system/lib/admin-validations.ts:7-10 | The name passes iff its length is 3..200. |
| AdminValidations.DescriptionLengths | ticketing-system/lib/admin-validations.ts:12-15 | The description passes iff its length is 10..2000. |
| AdminValidations.VenueLengths | ticketing-system/lib/admin-validations.ts:30-33 | The venue passes iff its length is 3..200. |
| AdminValidations.TimeMatchesClockTimes | ticketing-system/lib/admin-validations.ts:26-28 | The time regex matches iff the text is H:MM or HH:MM with hour 0..23 and minutes 00..59. |
| AdminValidations.TimeExamples | ticketing-system/lib/admin-validations.ts:26-28 | Examples only; the all-inputs statement is `TimeMatchesClockTimes`: '0:00', '00:00' and '23:59' are accepted; '24:00', '7:5' and '12:60' are refused. |
| AdminValidations.EventFormSchema | ticketing-system/lib/admin-validations.ts:6-34 | The event form is accepted iff: name length 3..200; description 10..2000; a non-empty date not before today; an H:MM/HH:MM clock time; venue length 3..200. |
| AdminValidations.SectionNameLengths | ticketing-system/lib/admin-validations.ts:42-45 | The section name passes iff its length is 2..100. |
| AdminValidations.WholeWithin | ticketing-system/lib/admin-validations.ts:51-54 | A whole number is in (0, 10000] iff it is an integer in 1..10000. |
| AdminValidations.SectionSchema | ticketing-system/lib/admin-validations.ts:41-55 | A section is accepted iff its name length is 2..100, 0 < price ≤ 10000, and the seat count is an integer in 1..10000. |
| AdminValidations.SectionListIssues | ticketing-system/lib/admin-validations.ts:62-66 | The section list has no issues iff every section is accepted. |
| AdminValidations.SectionCount | ticketing-system/lib/admin-validations.ts:62-66 | The count checks pass iff there are 1..20 sections. |
| AdminValidations.EventWithSectionsSchema | ticketing-system/lib/admin-validations.ts:62-66 | Accepted iff the form is accepted and there are 1..20 sections, each accepted. |
| AdminValidations.AcceptedSubmissionCreates | ticketing-system/actions/event-actions.ts:67-139 | A submission the admin schema accepts, from a signed-in user, is created by `createEvent`. |
| Text.TrimEmptyIffBlank | ticketing-system/lib/validations.ts:50 | `trim()` yields the empty string iff every character is whitespace. |
| Text.DecimalRoundTrip | components/ui/reservation-timer.tsx:52 | Reading back a number's decimal numeral gives the number. |

## Left out

- Timers, loading flags, router navigation, `revalidatePath` and console logging are not modelled. The hooks' expiry callbacks are methods (`OnReservationExpired`) that a caller invokes.
- Authentication is not modelled for the seat actions: `TicketActions.Reserve`, `Purchase` and `Cancel` assume a signed-in `caller`. Signed out, `requireAuth` throws 'Unauthorized' (lib/auth.ts:65-66); `reserveTickets` then answers 'Failed to reserve tickets' (actions/ticket-actions.ts:126-131), while `purchaseTickets` and `cancelReservation` answer 'Unauthorized' through the thrown message (actions/ticket-actions.ts:213-217, 275-279). `createEvent` does model a missing user (`caller: Option<Id>`), and `updateEvent` takes an administrator flag.
- Concurrency between buyers is not modelled. Each action is one sequential step on the store.
- SQL text, the connection pool and `transaction` plumbing are not modelled. A transaction commits every write or none.
- The catch-all answers to a database error are not modelled: 'Failed to reserve tickets' from `reserveTickets` (actions/ticket-actions.ts:124-131), and the empty list from `getAllSeats` (actions/ticket-actions.ts:30-33), `getEvents` and `getUpcomingEvents` (ticketing-system/actions/event-actions.ts:33-36, 252-255). The modelled store never fails a query.
- `getEventById` and `deleteEvent` (ticketing-system/actions/event-actions.ts:39-65, 210-229) are not modelled. They are single queries with no local logic.
- The INSERT … ON CONFLICT of a reservation is modelled as a conditional update of the existing row. The row is always present, so the DELETE removes nothing.
- Date and time parsing (`new Date(...)`) is not modelled. Event dates, "today" and the card-expiry clock are integers passed in.
- Rows returned by `WHERE id = ANY(...)` are taken in first-occurrence order of the request, since SQL leaves the order open.
- On a rollback the model's key counter does not advance. A database sequence would skip the keys it consumed. Keys are opaque, so nothing else depends on this.
- String lengths count code points, not UTF-16 code units, and `char` cannot hold a lone surrogate.
- Utils.GenerateSeatNumbers requires at most `10 * (0xD800 - 65)` seats. Beyond that, `String.fromCharCode` produces lone surrogate code units (and wraps modulo 2^16), which `char` cannot hold; the source does not fail there. Refusing such a section is the model's choice: `createEvent` then rolls back with 'Failed to create event'.
- `JSON.parse` is modelled by the `SectionsJson` datatype. The choices are text it rejects, `null`, or an array of entries. Other JSON values (an object, a number) are not modelled.
- Prices are integer cents in the store and the server actions. The schema validators take the form's numbers as reals. NaN and infinities are not modelled.
- The schema validators return the issue messages in field order. The zod issue objects, their paths and the order between fields are not modelled.
- The validators' `errors` records are datatypes with one optional message per field, not string-keyed dictionaries.
- Availability counts the stored status, as the code does. A reserved seat whose hold has gone stale is not counted, even though it is claimable and the client shows it as available.
- `formatCurrency`, `formatDate` and `cn` are not modelled. They are thin wrappers over `Intl` and class-name libraries.
- TicketActions.GetAllSeats orders rows with `Text.LexLe`, a code-point comparison, which is what a binary ("C") collation does. Under a linguistic collation PostgreSQL may order labels past 'Z' differently; such labels only occur in sections of more than 260 seats.
- SeatSelectionHook.SeatSelection.OnReservationExpired and TicketingSeatSelectionHook.SeatSelection.OnReservationExpired act on the state current when they are invoked. In the hooks the `setTimeout` callback closes over the state of the render that scheduled it and is never cancelled, so a timer left from an earlier reservation can fire during a later one and clear it. The model does not capture that.
- Utils.FormatTime computes with exact integers. `parseInt` yields a double: integers beyond 2^53 lose precision and values of 10^21 or more print in exponent form, and neither is modelled.
