/** The seat-inventory engine of actions/ticket-actions.ts: reserving seats
    (a conditional claim per seat), purchasing held seats and cancelling a
    hold (each all-or-nothing), and listing a section's seats.

    Each action is a method on the shared `Database`; its effect is stated by
    a function over the tables it touches (`Reserve`, `Purchase`, `Cancel`),
    and the engine's guarantees are lemmas about those functions. The time
    `now` (milliseconds) is a parameter: the database's `NOW()` is fixed for
    a whole transaction and the purchase check reads the clock once per call. */
module TicketActions {
  import opened Common
  import opened Text
  import opened Sorting
  import opened Store

  const UnauthorizedMsg := "Unauthorized"
  const NoTicketsSelectedMsg := "No tickets selected"
  const TakenMsg := "Unable to reserve tickets. They may have been taken by another user."
  const NoTicketsToPurchaseMsg := "No tickets to purchase"
  const NotOwnerMsg := "You do not own all selected tickets"
  const NoLongerReservedMsg := "Some tickets are no longer reserved"
  const ExpiredMsg := "Your reservation has expired"
  const NoTicketsToCancelMsg := "No tickets to cancel"
  const NotReservedMsg := "Some tickets are not reserved"
  const PaymentMethod := "credit_card"

  function PartialMessage(reserved: nat, requested: nat): string {
    "Only " + NatToString(reserved) + " of " + NatToString(requested) + " tickets were available"
  }

  // ---------------------------------------------------------------------------
  // reserveTickets
  // ---------------------------------------------------------------------------

  /** The guard of the upsert: nobody holds the seat, or the hold is older
      than the hold window. A sold seat keeps its buyer and has no hold time,
      so it never passes. */
  predicate Claimable(t: Ticket, now: int, holdMs: nat) {
    t.userId.None? || (t.reservedAt.Some? && t.reservedAt.value < now - holdMs)
  }

  function Claim(t: Ticket, userId: Id, now: int): Ticket {
    t.(userId := Some(userId), status := Reserved, reservedAt := Some(now))
  }

  /** The reservation loop over `ids`, in order: each known, claimable seat is
      claimed and its id recorded. The recorded ids are exactly the requested
      seats that were claimable beforehand, each once and in request order. */
  function ClaimEach(tickets: map<Id, Ticket>, ids: seq<Id>, userId: Id, now: int, holdMs: nat)
    : (r: (map<Id, Ticket>, seq<Id>))
    ensures r.0.Keys == tickets.Keys
    ensures IsSubsequence(r.1, ids) && NoDuplicates(r.1)
    ensures forall id :: id in r.1 <==> id in ids && id in tickets && Claimable(tickets[id], now, holdMs)
    ensures forall id :: id in tickets ==>
              r.0[id] == if id in r.1 then Claim(tickets[id], userId, now) else tickets[id]
  {
    if ids == [] then (tickets, [])
    else
      var init := ids[..|ids| - 1];
      var id := ids[|ids| - 1];
      assert ids == init + [id];
      var (t, reserved) := ClaimEach(tickets, init, userId, now, holdMs);
      if id in t && Claimable(t[id], now, holdMs) then
        SubsequenceElements(reserved, init);
        (t[id := Claim(t[id], userId, now)], reserved + [id])
      else
        SubsequenceExtend(reserved, init, id);
        (t, reserved)
  }

  /** The response once the loop has run. */
  function ReserveOutcome(requested: nat, reserved: seq<Id>): ApiResponse<seq<Id>> {
    if |reserved| == 0 then Fail(TakenMsg)
    else if |reserved| < requested then ApiResponse(true, Some(reserved), Some(PartialMessage(|reserved|, requested)))
    else Ok(reserved)
  }

  /** `reserveTickets(ticketIds, userId)` called by `caller`: the new tickets table and the response. */
  function Reserve(tickets: map<Id, Ticket>, ticketIds: seq<Id>, userId: Id, caller: Id, now: int, holdMs: nat)
    : (map<Id, Ticket>, ApiResponse<seq<Id>>)
  {
    if caller != userId then (tickets, Fail(UnauthorizedMsg))
    else if ticketIds == [] then (tickets, Fail(NoTicketsSelectedMsg))
    else
      var (t, reserved) := ClaimEach(tickets, ticketIds, userId, now, holdMs);
      (t, ReserveOutcome(|ticketIds|, reserved))
  }

  method ReserveTickets(db: Database, ticketIds: seq<Id>, userId: Id, caller: Id, now: int)
    returns (resp: ApiResponse<seq<Id>>)
    requires db.Valid()
    modifies db`tickets
    ensures db.Valid()
    ensures (db.tickets, resp) == Reserve(old(db.tickets), ticketIds, userId, caller, now, db.holdMs)
  {
    if caller != userId {
      return Fail(UnauthorizedMsg);
    }
    if |ticketIds| == 0 {
      return Fail(NoTicketsSelectedMsg);
    }
    // One transaction; every step commits, so the transaction only commits.
    var reserved: seq<Id> := [];
    var i := 0;
    while i < |ticketIds|
      invariant 0 <= i <= |ticketIds|
      invariant (db.tickets, reserved) == ClaimEach(old(db.tickets), ticketIds[..i], userId, now, db.holdMs)
    {
      var id := ticketIds[i];
      assert ticketIds[..i + 1] == ticketIds[..i] + [id];
      if id in db.tickets {
        var ticket := db.tickets[id];
        if Claimable(ticket, now, db.holdMs) {
          db.tickets := db.tickets[id := Claim(ticket, userId, now)];
          reserved := reserved + [id];
        }
      }
      i := i + 1;
    }
    assert ticketIds[..i] == ticketIds;
    ReservePreservesValid(db.events, db.sections, old(db.tickets), db.orders, db.orderItems, db.nextId,
                          ticketIds, userId, caller, now, db.holdMs);
    resp := ReserveOutcome(|ticketIds|, reserved);
  }

  lemma ReservePreservesValid(
    events: map<Id, Event>, sections: map<Id, Section>, tickets: map<Id, Ticket>,
    orders: map<Id, Order>, orderItems: seq<OrderItem>, nextId: Id,
    ticketIds: seq<Id>, userId: Id, caller: Id, now: int, holdMs: nat)
    requires TablesValid(events, sections, tickets, orders, orderItems, nextId)
    ensures TablesValid(events, sections, Reserve(tickets, ticketIds, userId, caller, now, holdMs).0,
                        orders, orderItems, nextId)
  {
  }

  /** An unauthorized call or an empty request is refused and changes no ticket. */
  lemma ReserveRefusal(tickets: map<Id, Ticket>, ticketIds: seq<Id>, userId: Id, caller: Id, now: int, holdMs: nat)
    requires caller != userId || ticketIds == []
    ensures var (t, resp) := Reserve(tickets, ticketIds, userId, caller, now, holdMs);
            t == tickets && !resp.success && resp.data.None?
            && resp.error == Some(if caller != userId then UnauthorizedMsg else NoTicketsSelectedMsg)
  {
  }

  /** What a reservation returns: the claimed ids (those requested seats that
      were claimable), failure when there are none, the partial-success
      message when fewer than requested were claimed, no message otherwise. */
  lemma ReserveOutcomes(tickets: map<Id, Ticket>, ticketIds: seq<Id>, userId: Id, now: int, holdMs: nat)
    requires ticketIds != []
    ensures var (t, resp) := Reserve(tickets, ticketIds, userId, userId, now, holdMs);
            var claimed := ClaimEach(tickets, ticketIds, userId, now, holdMs).1;
            && (resp.success <==> exists id :: id in ticketIds && id in tickets && Claimable(tickets[id], now, holdMs))
            && (resp.success ==> resp.data == Some(claimed))
            && (!resp.success ==> t == tickets && resp.error == Some(TakenMsg))
            && (resp.success && |claimed| < |ticketIds| ==> resp.error == Some(PartialMessage(|claimed|, |ticketIds|)))
            && (resp.success && |claimed| == |ticketIds| ==> resp.error.None?)
  {
    var claimed := ClaimEach(tickets, ticketIds, userId, now, holdMs).1;
    if claimed == [] {
      forall id | id in tickets ensures ClaimEach(tickets, ticketIds, userId, now, holdMs).0[id] == tickets[id] { }
    } else {
      assert claimed[0] in claimed;
    }
    SubsequenceLength(claimed, ticketIds);
  }

  lemma {:induction false} SubsequenceLength(a: seq<Id>, b: seq<Id>)
    requires IsSubsequence(a, b)
    ensures |a| <= |b|
    decreases |b|
  {
    if a != [] && b != [] {
      if a[|a| - 1] == b[|b| - 1] {
        SubsequenceLength(a[..|a| - 1], b[..|b| - 1]);
      } else {
        SubsequenceLength(a, b[..|b| - 1]);
      }
    }
  }

  /** No double hold: a seat one buyer has just claimed cannot be claimed by
      anyone (the same buyer included) until the hold window has passed. */
  lemma NoDoubleHold(
    tickets: map<Id, Ticket>, first: seq<Id>, userA: Id, nowA: int,
    second: seq<Id>, userB: Id, nowB: int, holdMs: nat, id: Id)
    requires nowB - holdMs <= nowA
    requires id in Reserve(tickets, first, userA, userA, nowA, holdMs).1.data.GetOr([])
    ensures var t := Reserve(tickets, first, userA, userA, nowA, holdMs).0;
            var (t', resp) := Reserve(t, second, userB, userB, nowB, holdMs);
            t'[id] == t[id] && id !in resp.data.GetOr([])
            && t[id].userId == Some(userA)
  {
  }

  /** A hold older than the window is evictable: any buyer who asks for the seat gets it. */
  lemma StaleHoldIsEvictable(tickets: map<Id, Ticket>, ticketIds: seq<Id>, userId: Id, now: int, holdMs: nat, id: Id)
    requires id in tickets && id in ticketIds
    requires tickets[id].status == Reserved && Consistent(tickets[id])
    requires tickets[id].reservedAt.value < now - holdMs
    ensures var (t, resp) := Reserve(tickets, ticketIds, userId, userId, now, holdMs);
            resp.success && id in resp.data.value
            && t[id] == tickets[id].(userId := Some(userId), reservedAt := Some(now))
  {
  }

  // ---------------------------------------------------------------------------
  // purchaseTickets
  // ---------------------------------------------------------------------------

  /** The rows `WHERE id = ANY(ids)` returns: each existing requested ticket
      once (here in order of first request; SQL leaves the order open). */
  function Loaded(tickets: map<Id, Ticket>, ids: seq<Id>): (r: seq<Id>)
    ensures NoDuplicates(r)
    ensures forall id :: id in r <==> id in ids && id in tickets
    ensures (forall id :: id in ids ==> id !in tickets) ==> r == []
  {
    if ids == [] then []
    else
      var init := ids[..|ids| - 1];
      var id := ids[|ids| - 1];
      assert ids == init + [id];
      var prev := Loaded(tickets, init);
      if id in tickets && id !in prev then prev + [id] else prev
  }

  /** The checks on one loaded ticket, in the order they are made. */
  function PurchaseCheck(t: Ticket, caller: Id, now: int, holdMs: nat): Option<string> {
    if t.userId != Some(caller) then Some(NotOwnerMsg)
    else if t.status != Reserved then Some(NoLongerReservedMsg)
    else if t.reservedAt.Some? && t.reservedAt.value < now - holdMs then Some(ExpiredMsg)
    else None
  }

  /** The first failed check of a loop that throws on the first failure. */
  function FirstFailure(checks: seq<Option<string>>): (r: Option<string>)
    ensures r.None? <==> forall k :: 0 <= k < |checks| ==> checks[k].None?
    ensures r.Some? ==> r in checks
  {
    if checks == [] then None
    else if checks[0].Some? then checks[0]
    else
      assert forall k :: 1 <= k < |checks| ==> checks[k] == checks[1..][k - 1];
      FirstFailure(checks[1..])
  }

  lemma {:induction false} FirstFailureAt(checks: seq<Option<string>>, k: nat)
    requires k < |checks| && checks[k].Some?
    requires forall j :: 0 <= j < k ==> checks[j].None?
    ensures FirstFailure(checks) == checks[k]
  {
    if k > 0 {
      FirstFailureAt(checks[1..], k - 1);
    }
  }

  function PurchaseChecks(tickets: map<Id, Ticket>, loaded: seq<Id>, caller: Id, now: int, holdMs: nat)
    : seq<Option<string>>
    requires forall id :: id in loaded ==> id in tickets
  {
    seq(|loaded|, k requires 0 <= k < |loaded| => PurchaseCheck(tickets[loaded[k]], caller, now, holdMs))
  }

  /** Every ticket row has its section (the join in the purchase query finds a price). */
  predicate SectionsKnown(tickets: map<Id, Ticket>, sections: map<Id, Section>) {
    forall id :: id in tickets ==> tickets[id].sectionId in sections
  }

  function TicketPrice(tickets: map<Id, Ticket>, sections: map<Id, Section>, id: Id): int
    requires SectionsKnown(tickets, sections) && id in tickets
  {
    sections[tickets[id].sectionId].price
  }

  /** `tickets.reduce((sum, t) => sum + t.price, 0)` */
  function OrderTotal(tickets: map<Id, Ticket>, sections: map<Id, Section>, loaded: seq<Id>): int
    requires SectionsKnown(tickets, sections)
    requires forall id :: id in loaded ==> id in tickets
  {
    if loaded == [] then 0
    else OrderTotal(tickets, sections, loaded[..|loaded| - 1]) + TicketPrice(tickets, sections, loaded[|loaded| - 1])
  }

  /** One order line per loaded ticket, at its section's price. */
  function OrderItemsFor(orderId: Id, tickets: map<Id, Ticket>, sections: map<Id, Section>, loaded: seq<Id>)
    : (r: seq<OrderItem>)
    requires SectionsKnown(tickets, sections)
    requires forall id :: id in loaded ==> id in tickets
    ensures |r| == |loaded|
    ensures forall k :: 0 <= k < |r| ==>
              r[k] == OrderItem(orderId, loaded[k], TicketPrice(tickets, sections, loaded[k]))
  {
    if loaded == [] then []
    else
      var last := loaded[|loaded| - 1];
      OrderItemsFor(orderId, tickets, sections, loaded[..|loaded| - 1])
        + [OrderItem(orderId, last, TicketPrice(tickets, sections, last))]
  }

  function ItemsTotal(items: seq<OrderItem>): int {
    if items == [] then 0 else ItemsTotal(items[..|items| - 1]) + items[|items| - 1].price
  }

  /** The order's total is the sum of the prices on its order lines. */
  lemma {:induction false} OrderTotalIsItemsTotal(orderId: Id, tickets: map<Id, Ticket>, sections: map<Id, Section>, loaded: seq<Id>)
    requires SectionsKnown(tickets, sections)
    requires forall id :: id in loaded ==> id in tickets
    ensures ItemsTotal(OrderItemsFor(orderId, tickets, sections, loaded)) == OrderTotal(tickets, sections, loaded)
  {
    if loaded != [] {
      var items := OrderItemsFor(orderId, tickets, sections, loaded);
      OrderTotalIsItemsTotal(orderId, tickets, sections, loaded[..|loaded| - 1]);
      assert items[..|items| - 1] == OrderItemsFor(orderId, tickets, sections, loaded[..|loaded| - 1]);
    }
  }

  function Sell(t: Ticket, orderId: Id): Ticket {
    t.(status := Sold, orderId := Some(orderId), reservedAt := None)
  }

  /** `UPDATE tickets SET status = 'sold', order_id, reserved_at = NULL WHERE id = ANY(ids)` */
  function SellAll(tickets: map<Id, Ticket>, ids: seq<Id>, orderId: Id): (r: map<Id, Ticket>)
    ensures r.Keys == tickets.Keys
  {
    map id | id in tickets :: if id in ids then Sell(tickets[id], orderId) else tickets[id]
  }

  datatype PurchaseEffect = PurchaseEffect(
    tickets: map<Id, Ticket>,
    orders: map<Id, Order>,
    orderItems: seq<OrderItem>,
    response: ApiResponse<Id>)

  /** `purchaseTickets(ticketIds)` called by `caller`, the new order taking key `orderId`.
      A failed check throws inside the transaction, which rolls back: the
      tables come back as they were. */
  function Purchase(
    tickets: map<Id, Ticket>, sections: map<Id, Section>, orders: map<Id, Order>, orderItems: seq<OrderItem>,
    ticketIds: seq<Id>, caller: Id, now: int, holdMs: nat, orderId: Id): PurchaseEffect
    requires SectionsKnown(tickets, sections)
  {
    if ticketIds == [] then PurchaseEffect(tickets, orders, orderItems, Fail(NoTicketsToPurchaseMsg))
    else
      var loaded := Loaded(tickets, ticketIds);
      var failure := FirstFailure(PurchaseChecks(tickets, loaded, caller, now, holdMs));
      if failure.Some? then PurchaseEffect(tickets, orders, orderItems, Fail(failure.value))
      else
        var order := Order(caller, OrderTotal(tickets, sections, loaded), Completed, PaymentMethod);
        PurchaseEffect(
          SellAll(tickets, ticketIds, orderId),
          orders[orderId := order],
          orderItems + OrderItemsFor(orderId, tickets, sections, loaded),
          Ok(orderId))
  }

  /** The check loop: the message of the first loaded ticket that fails. */
  method CheckHolds(tickets: map<Id, Ticket>, loaded: seq<Id>, caller: Id, now: int, holdMs: nat)
    returns (failure: Option<string>)
    requires forall id :: id in loaded ==> id in tickets
    ensures failure == FirstFailure(PurchaseChecks(tickets, loaded, caller, now, holdMs))
  {
    ghost var checks := PurchaseChecks(tickets, loaded, caller, now, holdMs);
    var i := 0;
    while i < |loaded|
      invariant 0 <= i <= |loaded|
      invariant forall k :: 0 <= k < i ==> checks[k].None?
    {
      var ticket := tickets[loaded[i]];
      if ticket.userId != Some(caller) {
        failure := Some(NotOwnerMsg);
      } else if ticket.status != Reserved {
        failure := Some(NoLongerReservedMsg);
      } else if ticket.reservedAt.Some? && ticket.reservedAt.value < now - holdMs {
        failure := Some(ExpiredMsg);
      } else {
        failure := None;
      }
      if failure.Some? {
        FirstFailureAt(checks, i);
        return;
      }
      i := i + 1;
    }
    failure := None;
  }

  /** The total of the loaded tickets' prices. */
  method SumPrices(tickets: map<Id, Ticket>, sections: map<Id, Section>, loaded: seq<Id>) returns (total: int)
    requires SectionsKnown(tickets, sections)
    requires forall id :: id in loaded ==> id in tickets
    ensures total == OrderTotal(tickets, sections, loaded)
  {
    total := 0;
    var j := 0;
    while j < |loaded|
      invariant 0 <= j <= |loaded|
      invariant total == OrderTotal(tickets, sections, loaded[..j])
    {
      assert loaded[..j + 1][..j] == loaded[..j];
      total := total + sections[tickets[loaded[j]].sectionId].price;
      j := j + 1;
    }
    assert loaded[..j] == loaded;
  }

  /** The order-item inserts, one per loaded ticket, in loop order. */
  method OrderLines(orderId: Id, tickets: map<Id, Ticket>, sections: map<Id, Section>, loaded: seq<Id>)
    returns (lines: seq<OrderItem>)
    requires SectionsKnown(tickets, sections)
    requires forall id :: id in loaded ==> id in tickets
    ensures lines == OrderItemsFor(orderId, tickets, sections, loaded)
  {
    lines := [];
    var k := 0;
    while k < |loaded|
      invariant 0 <= k <= |loaded|
      invariant lines == OrderItemsFor(orderId, tickets, sections, loaded[..k])
    {
      assert loaded[..k + 1][..k] == loaded[..k];
      lines := lines + [OrderItem(orderId, loaded[k], sections[tickets[loaded[k]].sectionId].price)];
      k := k + 1;
    }
    assert loaded[..k] == loaded;
  }

  /** The writes of a purchase whose checks passed: the order row under the
      next key, the loaded seats sold to it, one order line per seat. */
  method CommitSale(db: Database, ticketIds: seq<Id>, loaded: seq<Id>, caller: Id, total: int)
    returns (orderId: Id)
    requires db.Valid() && forall id :: id in loaded ==> id in db.tickets
    requires forall id :: id in ticketIds && id in db.tickets ==> db.tickets[id].userId.Some?
    modifies db`tickets, db`orders, db`orderItems, db`nextId
    ensures db.Valid()
    ensures orderId == old(db.nextId) && db.nextId == orderId + 1
    ensures db.orders == old(db.orders)[orderId := Order(caller, total, Completed, PaymentMethod)]
    ensures db.tickets == SellAll(old(db.tickets), ticketIds, orderId)
    ensures db.orderItems == old(db.orderItems) + OrderItemsFor(orderId, old(db.tickets), db.sections, loaded)
  {
    orderId := db.nextId;
    var order := Order(caller, total, Completed, PaymentMethod);
    var lines := OrderLines(orderId, db.tickets, db.sections, loaded);
    SaleKeepsTablesValid(db.events, db.sections, db.tickets, db.orders, db.orderItems, orderId, ticketIds, order, lines);
    db.nextId, db.orders, db.tickets, db.orderItems :=
      orderId + 1, db.orders[orderId := order], SellAll(db.tickets, ticketIds, orderId), db.orderItems + lines;
  }

  method PurchaseTickets(db: Database, ticketIds: seq<Id>, caller: Id, now: int) returns (resp: ApiResponse<Id>)
    requires db.Valid()
    modifies db`tickets, db`orders, db`orderItems, db`nextId
    ensures db.Valid()
    ensures var e := Purchase(old(db.tickets), db.sections, old(db.orders), old(db.orderItems),
                              ticketIds, caller, now, db.holdMs, old(db.nextId));
            db.tickets == e.tickets && db.orders == e.orders && db.orderItems == e.orderItems
            && resp == e.response
    ensures db.nextId == if resp.success then old(db.nextId) + 1 else old(db.nextId)
  {
    if |ticketIds| == 0 {
      return Fail(NoTicketsToPurchaseMsg);
    }
    // Transaction. Every check precedes the first write, so a failed check
    // returns with the tables untouched: that is the rollback.
    var loaded := Loaded(db.tickets, ticketIds);
    var failure := CheckHolds(db.tickets, loaded, caller, now, db.holdMs);
    if failure.Some? {
      return Fail(failure.value);
    }
    var total := SumPrices(db.tickets, db.sections, loaded);
    PurchasedSeatsWereHeld(db.tickets, ticketIds, caller, now, db.holdMs);
    var orderId := CommitSale(db, ticketIds, loaded, caller, total);
    resp := Ok(orderId);
  }

  /** A successful purchase only sells seats the caller holds. */
  lemma PurchasedSeatsWereHeld(
    tickets: map<Id, Ticket>, ticketIds: seq<Id>, caller: Id, now: int, holdMs: nat)
    requires FirstFailure(PurchaseChecks(tickets, Loaded(tickets, ticketIds), caller, now, holdMs)).None?
    ensures forall id :: id in ticketIds && id in tickets ==>
              tickets[id].userId == Some(caller) && tickets[id].status == Reserved
              && !(tickets[id].reservedAt.Some? && tickets[id].reservedAt.value < now - holdMs)
  {
    var loaded := Loaded(tickets, ticketIds);
    var checks := PurchaseChecks(tickets, loaded, caller, now, holdMs);
    forall id | id in ticketIds && id in tickets
      ensures PurchaseCheck(tickets[id], caller, now, holdMs).None?
    {
      var k :| 0 <= k < |loaded| && loaded[k] == id;
      assert checks[k] == PurchaseCheck(tickets[id], caller, now, holdMs);
    }
  }

  /** Selling held seats to a new order, with order lines that name that
      order and existing seats, keeps the tables valid. */
  lemma SaleKeepsTablesValid(
    events: map<Id, Event>, sections: map<Id, Section>, tickets: map<Id, Ticket>,
    orders: map<Id, Order>, orderItems: seq<OrderItem>, nextId: Id,
    ticketIds: seq<Id>, order: Order, lines: seq<OrderItem>)
    requires TablesValid(events, sections, tickets, orders, orderItems, nextId)
    requires forall id :: id in ticketIds && id in tickets ==> tickets[id].userId.Some?
    requires forall i :: 0 <= i < |lines| ==> lines[i].orderId == nextId && lines[i].ticketId in tickets
    ensures TablesValid(events, sections, SellAll(tickets, ticketIds, nextId), orders[nextId := order],
                        orderItems + lines, nextId + 1)
  {
    var sold := SellAll(tickets, ticketIds, nextId);
    var orders' := orders[nextId := order];
    forall id | id in sold ensures id < nextId + 1 && TicketValid(sold[id], sections, orders') {
      assert TicketValid(tickets[id], sections, orders);
    }
    forall i | 0 <= i < |orderItems + lines|
      ensures (orderItems + lines)[i].orderId in orders' && (orderItems + lines)[i].ticketId in sold
    {
      if i >= |orderItems| {
        assert (orderItems + lines)[i] == lines[i - |orderItems|];
      }
    }
  }

  lemma PurchasePreservesValid(
    events: map<Id, Event>, sections: map<Id, Section>, tickets: map<Id, Ticket>,
    orders: map<Id, Order>, orderItems: seq<OrderItem>, nextId: Id,
    ticketIds: seq<Id>, caller: Id, now: int, holdMs: nat)
    requires TablesValid(events, sections, tickets, orders, orderItems, nextId)
    ensures var e := Purchase(tickets, sections, orders, orderItems, ticketIds, caller, now, holdMs, nextId);
            TablesValid(events, sections, e.tickets, e.orders, e.orderItems, if e.response.success then nextId + 1 else nextId)
  {
    if ticketIds != [] && FirstFailure(PurchaseChecks(tickets, Loaded(tickets, ticketIds), caller, now, holdMs)).None? {
      var loaded := Loaded(tickets, ticketIds);
      PurchasedSeatsWereHeld(tickets, ticketIds, caller, now, holdMs);
      SaleKeepsTablesValid(events, sections, tickets, orders, orderItems, nextId, ticketIds,
                           Order(caller, OrderTotal(tickets, sections, loaded), Completed, PaymentMethod),
                           OrderItemsFor(nextId, tickets, sections, loaded));
    }
  }

  /** What a purchase does. It succeeds exactly when every requested seat that
      exists passes the checks (held by the caller, still reserved, hold not
      expired). On success every such seat is sold to the new order, no other
      seat changes, the order belongs to the caller and its total is the sum
      of its order lines, which cover each purchased seat once at its
      section's price. On failure nothing changes and the error is the
      message of a failed check on one of the requested seats. */
  lemma PurchaseOutcomes(
    tickets: map<Id, Ticket>, sections: map<Id, Section>, orders: map<Id, Order>, orderItems: seq<OrderItem>,
    ticketIds: seq<Id>, caller: Id, now: int, holdMs: nat, orderId: Id)
    requires SectionsKnown(tickets, sections) && ticketIds != []
    ensures var e := Purchase(tickets, sections, orders, orderItems, ticketIds, caller, now, holdMs, orderId);
            && (e.response.success <==>
                  forall id :: id in ticketIds && id in tickets ==> PurchaseCheck(tickets[id], caller, now, holdMs).None?)
            && (!e.response.success ==>
                  && e.tickets == tickets && e.orders == orders && e.orderItems == orderItems
                  && exists id :: id in ticketIds && id in tickets && e.response.error == PurchaseCheck(tickets[id], caller, now, holdMs))
  {
    var loaded := Loaded(tickets, ticketIds);
    var checks := PurchaseChecks(tickets, loaded, caller, now, holdMs);
    var failure := FirstFailure(checks);
    if failure.Some? {
      var k :| 0 <= k < |checks| && checks[k] == failure;
      assert loaded[k] in loaded;
    } else {
      forall id | id in ticketIds && id in tickets
        ensures PurchaseCheck(tickets[id], caller, now, holdMs).None?
      {
        var k :| 0 <= k < |loaded| && loaded[k] == id;
        assert checks[k] == PurchaseCheck(tickets[id], caller, now, holdMs);
      }
    }
  }

  /** The order lines of a purchase: one per loaded seat, each naming the
      order and the seat at its section's price, no seat twice; their total
      is the order total. */
  lemma {:induction false} OrderLinesCoverLoaded(
    orderId: Id, tickets: map<Id, Ticket>, sections: map<Id, Section>, ticketIds: seq<Id>)
    requires SectionsKnown(tickets, sections)
    ensures var loaded := Loaded(tickets, ticketIds);
            var lines := OrderItemsFor(orderId, tickets, sections, loaded);
            && ItemsTotal(lines) == OrderTotal(tickets, sections, loaded)
            && (forall k :: 0 <= k < |lines| ==>
                  && lines[k].orderId == orderId && lines[k].ticketId in ticketIds && lines[k].ticketId in tickets
                  && lines[k].price == TicketPrice(tickets, sections, lines[k].ticketId))
            && (forall id :: id in ticketIds && id in tickets ==> exists k :: 0 <= k < |lines| && lines[k].ticketId == id)
            && (forall i, j :: 0 <= i < j < |lines| ==> lines[i].ticketId != lines[j].ticketId)
  {
    var loaded := Loaded(tickets, ticketIds);
    OrderTotalIsItemsTotal(orderId, tickets, sections, loaded);
    OrderLinesNameLoaded(orderId, tickets, sections, ticketIds);
    OrderLinesReachLoaded(orderId, tickets, sections, ticketIds);
  }

  lemma OrderLinesNameLoaded(orderId: Id, tickets: map<Id, Ticket>, sections: map<Id, Section>, ticketIds: seq<Id>)
    requires SectionsKnown(tickets, sections)
    ensures var loaded := Loaded(tickets, ticketIds);
            var lines := OrderItemsFor(orderId, tickets, sections, loaded);
            && (forall k :: 0 <= k < |lines| ==>
                  && lines[k].orderId == orderId && lines[k].ticketId in ticketIds && lines[k].ticketId in tickets
                  && lines[k].price == TicketPrice(tickets, sections, lines[k].ticketId))
            && (forall i, j :: 0 <= i < j < |lines| ==> lines[i].ticketId != lines[j].ticketId)
  {
    var loaded := Loaded(tickets, ticketIds);
    var lines := OrderItemsFor(orderId, tickets, sections, loaded);
    forall k | 0 <= k < |lines|
      ensures lines[k].ticketId in ticketIds && lines[k].ticketId in tickets
    {
      assert lines[k].ticketId == loaded[k] && loaded[k] in loaded;
    }
    forall i, j | 0 <= i < j < |lines| ensures lines[i].ticketId != lines[j].ticketId {
      assert lines[i].ticketId == loaded[i] && lines[j].ticketId == loaded[j];
    }
  }

  lemma OrderLinesReachLoaded(orderId: Id, tickets: map<Id, Ticket>, sections: map<Id, Section>, ticketIds: seq<Id>)
    requires SectionsKnown(tickets, sections)
    ensures var loaded := Loaded(tickets, ticketIds);
            var lines := OrderItemsFor(orderId, tickets, sections, loaded);
            forall id :: id in ticketIds && id in tickets ==> exists k :: 0 <= k < |lines| && lines[k].ticketId == id
  {
    var loaded := Loaded(tickets, ticketIds);
    var lines := OrderItemsFor(orderId, tickets, sections, loaded);
    forall id | id in ticketIds && id in tickets
      ensures exists k :: 0 <= k < |lines| && lines[k].ticketId == id
    {
      assert id in loaded;
      var k :| 0 <= k < |loaded| && loaded[k] == id;
      assert lines[k].ticketId == id;
    }
    assert lines == OrderItemsFor(orderId, tickets, sections, Loaded(tickets, ticketIds));
  }

  /** A successful purchase: the seats sold to the new order, nothing else
      changed, the order the caller's and completed, its lines appended. */
  lemma PurchaseSale(
    tickets: map<Id, Ticket>, sections: map<Id, Section>, orders: map<Id, Order>, orderItems: seq<OrderItem>,
    ticketIds: seq<Id>, caller: Id, now: int, holdMs: nat, orderId: Id)
    requires SectionsKnown(tickets, sections)
    requires Purchase(tickets, sections, orders, orderItems, ticketIds, caller, now, holdMs, orderId).response.success
    ensures var e := Purchase(tickets, sections, orders, orderItems, ticketIds, caller, now, holdMs, orderId);
            && e.response.data == Some(orderId)
            && (forall id :: id in tickets ==>
                  e.tickets[id] == if id in ticketIds then Sell(tickets[id], orderId) else tickets[id])
            && orderId in e.orders && e.orders[orderId].userId == caller
            && e.orders[orderId].paymentStatus == Completed
            && (forall o :: o in orders && o != orderId ==> o in e.orders && e.orders[o] == orders[o])
            && |e.orderItems| >= |orderItems| && e.orderItems[..|orderItems|] == orderItems
            && e.orders[orderId].totalAmount == ItemsTotal(e.orderItems[|orderItems|..])
            && e.orderItems[|orderItems|..] == OrderItemsFor(orderId, tickets, sections, Loaded(tickets, ticketIds))
  {
    var loaded := Loaded(tickets, ticketIds);
    var lines := OrderItemsFor(orderId, tickets, sections, loaded);
    var e := Purchase(tickets, sections, orders, orderItems, ticketIds, caller, now, holdMs, orderId);
    assert e.orderItems == orderItems + lines;
    assert e.orderItems[|orderItems|..] == lines;
    OrderTotalIsItemsTotal(orderId, tickets, sections, loaded);
  }

  /** A purchase that includes a seat the caller does not hold (another
      buyer's, an available one, a sold one) sells nothing: all or nothing. */
  lemma PurchaseIsAllOrNothing(
    tickets: map<Id, Ticket>, sections: map<Id, Section>, orders: map<Id, Order>, orderItems: seq<OrderItem>,
    ticketIds: seq<Id>, caller: Id, now: int, holdMs: nat, orderId: Id, id: Id)
    requires SectionsKnown(tickets, sections)
    requires id in ticketIds && id in tickets
    requires tickets[id].userId != Some(caller) || tickets[id].status != Reserved
    ensures var e := Purchase(tickets, sections, orders, orderItems, ticketIds, caller, now, holdMs, orderId);
            && !e.response.success && e.response.error.Some?
            && e.tickets == tickets && e.orders == orders && e.orderItems == orderItems
  {
    PurchaseOutcomes(tickets, sections, orders, orderItems, ticketIds, caller, now, holdMs, orderId);
    assert PurchaseCheck(tickets[id], caller, now, holdMs).Some?;
  }

  /** A hold older than the window cannot be bought, even by its holder. */
  lemma ExpiredHoldCannotBePurchased(
    tickets: map<Id, Ticket>, sections: map<Id, Section>, orders: map<Id, Order>, orderItems: seq<OrderItem>,
    ticketIds: seq<Id>, caller: Id, now: int, holdMs: nat, orderId: Id, id: Id)
    requires SectionsKnown(tickets, sections)
    requires id in ticketIds && id in tickets
    requires tickets[id].reservedAt.Some? && tickets[id].reservedAt.value < now - holdMs
    ensures var e := Purchase(tickets, sections, orders, orderItems, ticketIds, caller, now, holdMs, orderId);
            !e.response.success && e.tickets == tickets && e.orders == orders && e.orderItems == orderItems
  {
    PurchaseOutcomes(tickets, sections, orders, orderItems, ticketIds, caller, now, holdMs, orderId);
    assert PurchaseCheck(tickets[id], caller, now, holdMs).Some?;
  }

  /** Requested ids that match no ticket are skipped: a request made only of
      such ids succeeds with an empty order of total 0 and sells nothing. */
  lemma PurchaseOfUnknownTickets(
    tickets: map<Id, Ticket>, sections: map<Id, Section>, orders: map<Id, Order>, orderItems: seq<OrderItem>,
    ticketIds: seq<Id>, caller: Id, now: int, holdMs: nat, orderId: Id)
    requires SectionsKnown(tickets, sections) && ticketIds != []
    requires forall id :: id in ticketIds ==> id !in tickets
    ensures var e := Purchase(tickets, sections, orders, orderItems, ticketIds, caller, now, holdMs, orderId);
            && e.response == Ok(orderId) && e.tickets == tickets && e.orderItems == orderItems
            && e.orders == orders[orderId := Order(caller, 0, Completed, PaymentMethod)]
  {
    var loaded := Loaded(tickets, ticketIds);
    var e := Purchase(tickets, sections, orders, orderItems, ticketIds, caller, now, holdMs, orderId);
    assert e.tickets == tickets;
  }

  /** An empty request is refused with its own message; no ticket, order or
      order item changes (and so no order key is spent). */
  lemma PurchaseRefusal(
    tickets: map<Id, Ticket>, sections: map<Id, Section>, orders: map<Id, Order>, orderItems: seq<OrderItem>,
    caller: Id, now: int, holdMs: nat, orderId: Id)
    requires SectionsKnown(tickets, sections)
    ensures var e := Purchase(tickets, sections, orders, orderItems, [], caller, now, holdMs, orderId);
            && e.tickets == tickets && e.orders == orders && e.orderItems == orderItems
            && e.response == ApiResponse(false, None, Some(NoTicketsToPurchaseMsg))
  {
  }

  // ---------------------------------------------------------------------------
  // cancelReservation
  // ---------------------------------------------------------------------------

  /** The checks on one loaded ticket, in the order they are made. */
  function CancelCheck(t: Ticket, userId: Id): Option<string> {
    if t.userId != Some(userId) then Some(NotOwnerMsg)
    else if t.status != Reserved then Some(NotReservedMsg)
    else None
  }

  function CancelChecks(tickets: map<Id, Ticket>, loaded: seq<Id>, userId: Id): seq<Option<string>>
    requires forall id :: id in loaded ==> id in tickets
  {
    seq(|loaded|, k requires 0 <= k < |loaded| => CancelCheck(tickets[loaded[k]], userId))
  }

  function Release(t: Ticket): Ticket {
    t.(userId := None, status := Available, reservedAt := None)
  }

  /** `UPDATE tickets SET user_id = NULL, status = 'available', reserved_at = NULL WHERE id = ANY(ids)` */
  function ReleaseAll(tickets: map<Id, Ticket>, ids: seq<Id>): (r: map<Id, Ticket>)
    ensures r.Keys == tickets.Keys
  {
    map id | id in tickets :: if id in ids then Release(tickets[id]) else tickets[id]
  }

  /** `cancelReservation(ticketIds, userId)` called by `caller`. */
  function Cancel(tickets: map<Id, Ticket>, ticketIds: seq<Id>, userId: Id, caller: Id)
    : (map<Id, Ticket>, ApiResponse<()>)
  {
    if caller != userId then (tickets, Fail(UnauthorizedMsg))
    else if ticketIds == [] then (tickets, Fail(NoTicketsToCancelMsg))
    else
      var loaded := Loaded(tickets, ticketIds);
      var failure := FirstFailure(CancelChecks(tickets, loaded, userId));
      if failure.Some? then (tickets, Fail(failure.value))
      else (ReleaseAll(tickets, ticketIds), ApiResponse(true, None, None))
  }

  /** The check loop: the message of the first loaded ticket that fails. */
  method CheckCancellable(tickets: map<Id, Ticket>, loaded: seq<Id>, userId: Id) returns (failure: Option<string>)
    requires forall id :: id in loaded ==> id in tickets
    ensures failure == FirstFailure(CancelChecks(tickets, loaded, userId))
  {
    ghost var checks := CancelChecks(tickets, loaded, userId);
    var i := 0;
    while i < |loaded|
      invariant 0 <= i <= |loaded|
      invariant forall k :: 0 <= k < i ==> checks[k].None?
    {
      var ticket := tickets[loaded[i]];
      if ticket.userId != Some(userId) {
        failure := Some(NotOwnerMsg);
      } else if ticket.status != Reserved {
        failure := Some(NotReservedMsg);
      } else {
        failure := None;
      }
      if failure.Some? {
        FirstFailureAt(checks, i);
        return;
      }
      i := i + 1;
    }
    failure := None;
  }

  method CancelReservation(db: Database, ticketIds: seq<Id>, userId: Id, caller: Id) returns (resp: ApiResponse<()>)
    requires db.Valid()
    modifies db`tickets
    ensures db.Valid()
    ensures (db.tickets, resp) == Cancel(old(db.tickets), ticketIds, userId, caller)
  {
    if caller != userId {
      return Fail(UnauthorizedMsg);
    }
    if |ticketIds| == 0 {
      return Fail(NoTicketsToCancelMsg);
    }
    // Transaction: the checks precede the only write, so a failed check
    // leaves the table as it was.
    var loaded := Loaded(db.tickets, ticketIds);
    var failure := CheckCancellable(db.tickets, loaded, userId);
    if failure.Some? {
      return Fail(failure.value);
    }
    CancelPreservesValid(db.events, db.sections, db.tickets, db.orders, db.orderItems, db.nextId, ticketIds, userId, caller);
    db.tickets := ReleaseAll(db.tickets, ticketIds);
    resp := ApiResponse(true, None, None);
  }

  /** Seats whose checks passed are reserved, hence hold no order: releasing them keeps them consistent. */
  lemma CancelPreservesValid(
    events: map<Id, Event>, sections: map<Id, Section>, tickets: map<Id, Ticket>,
    orders: map<Id, Order>, orderItems: seq<OrderItem>, nextId: Id,
    ticketIds: seq<Id>, userId: Id, caller: Id)
    requires TablesValid(events, sections, tickets, orders, orderItems, nextId)
    ensures TablesValid(events, sections, Cancel(tickets, ticketIds, userId, caller).0, orders, orderItems, nextId)
  {
    if caller == userId && ticketIds != [] {
      CancelOutcomes(tickets, ticketIds, userId);
    }
  }

  /** What a cancellation does. It succeeds exactly when every requested seat
      that exists is reserved by `userId`; then those seats become available
      and nothing else changes. Otherwise nothing changes and the error is the
      message of a failed check on one of the requested seats. */
  lemma CancelOutcomes(tickets: map<Id, Ticket>, ticketIds: seq<Id>, userId: Id)
    requires ticketIds != []
    ensures var (t, resp) := Cancel(tickets, ticketIds, userId, userId);
            && t.Keys == tickets.Keys
            && (resp.success <==>
                  forall id :: id in ticketIds && id in tickets ==>
                    tickets[id].userId == Some(userId) && tickets[id].status == Reserved)
            && (resp.success ==>
                  && resp == ApiResponse(true, None, None)
                  && forall id :: id in tickets ==> t[id] == if id in ticketIds then Release(tickets[id]) else tickets[id])
            && (!resp.success ==>
                  && t == tickets
                  && exists id :: id in ticketIds && id in tickets && resp.error == CancelCheck(tickets[id], userId))
  {
    var loaded := Loaded(tickets, ticketIds);
    var checks := CancelChecks(tickets, loaded, userId);
    var failure := FirstFailure(checks);
    if failure.Some? {
      var k :| 0 <= k < |checks| && checks[k] == failure;
      assert loaded[k] in loaded;
    } else {
      forall id | id in ticketIds && id in tickets
        ensures CancelCheck(tickets[id], userId).None?
      {
        var k :| 0 <= k < |loaded| && loaded[k] == id;
        assert checks[k] == CancelCheck(tickets[id], userId);
      }
    }
  }

  /** A call for another user is refused as unauthorized, and an empty request
      with its own message; either way no ticket changes. */
  lemma CancelRefusal(tickets: map<Id, Ticket>, ticketIds: seq<Id>, userId: Id, caller: Id)
    requires caller != userId || ticketIds == []
    ensures var (t, resp) := Cancel(tickets, ticketIds, userId, caller);
            && t == tickets
            && resp == ApiResponse(false, None, Some(if caller != userId then UnauthorizedMsg else NoTicketsToCancelMsg))
  {
  }

  /** Cancelling twice: once the seats are released, cancelling them again
      (as the same buyer) is refused as not owned. */
  lemma CancelTwiceFails(tickets: map<Id, Ticket>, ticketIds: seq<Id>, userId: Id, id: Id)
    requires id in ticketIds && id in tickets
    requires Cancel(tickets, ticketIds, userId, userId).1.success
    ensures var t := Cancel(tickets, ticketIds, userId, userId).0;
            Cancel(t, ticketIds, userId, userId) == (t, Fail(NotOwnerMsg))
  {
    var t := Cancel(tickets, ticketIds, userId, userId).0;
    CancelOutcomes(tickets, ticketIds, userId);
    CancelOutcomes(t, ticketIds, userId);
    var resp := Cancel(t, ticketIds, userId, userId).1;
    var loaded := Loaded(t, ticketIds);
    var checks := CancelChecks(t, loaded, userId);
    assert forall k :: 0 <= k < |checks| ==> checks[k] == Some(NotOwnerMsg);
    assert resp.error.Some? && resp.error.value == NotOwnerMsg;
  }

  /** Reserve then cancel restores the seats: when every requested seat was
      available, cancelling the seats the reservation returned gives back
      the tickets table as it was. */
  lemma CancelUndoesReserve(tickets: map<Id, Ticket>, ticketIds: seq<Id>, userId: Id, now: int, holdMs: nat)
    requires forall id :: id in ticketIds && id in tickets ==>
               tickets[id].status == Available && Consistent(tickets[id])
    requires Reserve(tickets, ticketIds, userId, userId, now, holdMs).1.success
    ensures var (t, resp) := Reserve(tickets, ticketIds, userId, userId, now, holdMs);
            Cancel(t, resp.data.value, userId, userId) == (tickets, ApiResponse(true, None, None))
  {
    var (t, claimed) := ClaimEach(tickets, ticketIds, userId, now, holdMs);
    ReserveOutcomes(tickets, ticketIds, userId, now, holdMs);
    assert Reserve(tickets, ticketIds, userId, userId, now, holdMs) == (t, ReserveOutcome(|ticketIds|, claimed));
    var id0 :| id0 in ticketIds && id0 in tickets && Claimable(tickets[id0], now, holdMs);
    assert id0 in claimed;
    CancelRestoresClaimed(tickets, t, claimed, userId, now);
  }

  /** Cancelling the seats just claimed from available ones gives back the
      table as it was before the claim. */
  lemma CancelRestoresClaimed(tickets: map<Id, Ticket>, t: map<Id, Ticket>, claimed: seq<Id>, userId: Id, now: int)
    requires claimed != [] && t.Keys == tickets.Keys
    requires forall id :: id in claimed ==> id in tickets && tickets[id].status == Available && Consistent(tickets[id])
    requires forall id :: id in tickets ==> t[id] == if id in claimed then Claim(tickets[id], userId, now) else tickets[id]
    ensures Cancel(t, claimed, userId, userId) == (tickets, ApiResponse(true, None, None))
  {
    CancelOutcomes(t, claimed, userId);
    forall id | id in claimed && id in t ensures t[id].userId == Some(userId) && t[id].status == Reserved {
      assert t[id] == Claim(tickets[id], userId, now);
    }
    var (t', resp) := Cancel(t, claimed, userId, userId);
    assert resp == ApiResponse(true, None, None);
    forall id | id in tickets ensures t'[id] == tickets[id] {
      if id in claimed {
        ReleaseUndoesClaim(tickets[id], userId, now);
      }
    }
    assert t' == tickets;
  }

  lemma ReleaseUndoesClaim(t: Ticket, userId: Id, now: int)
    requires t.status == Available && Consistent(t)
    ensures Release(Claim(t, userId, now)) == t
  {
  }

  // ---------------------------------------------------------------------------
  // Sold seats are final
  // ---------------------------------------------------------------------------

  /** A sold seat is never changed again: reserving, purchasing or cancelling
      it (by anyone, at any time) leaves it as it is. */
  lemma SoldTicketIsFinal(
    tickets: map<Id, Ticket>, sections: map<Id, Section>, orders: map<Id, Order>, orderItems: seq<OrderItem>,
    ticketIds: seq<Id>, userId: Id, caller: Id, now: int, holdMs: nat, orderId: Id, id: Id)
    requires SectionsKnown(tickets, sections)
    requires id in tickets && tickets[id].status == Sold && Consistent(tickets[id])
    ensures Reserve(tickets, ticketIds, userId, caller, now, holdMs).0[id] == tickets[id]
    ensures Purchase(tickets, sections, orders, orderItems, ticketIds, caller, now, holdMs, orderId).tickets[id] == tickets[id]
    ensures Cancel(tickets, ticketIds, userId, caller).0[id] == tickets[id]
  {
    if id in ticketIds {
      PurchaseIsAllOrNothing(tickets, sections, orders, orderItems, ticketIds, caller, now, holdMs, orderId, id);
      if caller == userId {
        CancelOutcomes(tickets, ticketIds, userId);
      }
    }
  }

  // ---------------------------------------------------------------------------
  // getAllSeats
  // ---------------------------------------------------------------------------

  /** `ORDER BY seat_number` */
  predicate SeatOrder(a: Row, b: Row) {
    LexLe(a.ticket.seatNumber, b.ticket.seatNumber)
  }

  lemma SeatOrderIsTotalPreorder()
    ensures TotalPreorder(SeatOrder)
  {
    forall a: Row, b: Row ensures SeatOrder(a, b) || SeatOrder(b, a) {
      LexLeTotal(a.ticket.seatNumber, b.ticket.seatNumber);
    }
    forall a: Row, b: Row, c: Row | SeatOrder(a, b) && SeatOrder(b, c) ensures SeatOrder(a, c) {
      LexLeTransitive(a.ticket.seatNumber, b.ticket.seatNumber, c.ticket.seatNumber);
    }
  }

  predicate InSection(t: Ticket, eventId: Id, sectionId: Id) {
    t.eventId == eventId && t.sectionId == sectionId
  }

  /** `getAllSeats(eventId, sectionId)`: every ticket of the section, each
      once, with its key, ordered by seat number. */
  method GetAllSeats(db: Database, eventId: Id, sectionId: Id) returns (rows: seq<Row>)
    ensures SortedBy(rows, SeatOrder)
    ensures forall r :: r in rows ==>
              r.id in db.tickets && r.ticket == db.tickets[r.id] && InSection(r.ticket, eventId, sectionId)
    ensures forall id :: id in db.tickets && InSection(db.tickets[id], eventId, sectionId) ==>
              Row(id, db.tickets[id]) in rows
    ensures NoDuplicates(rows)
  {
    SeatOrderIsTotalPreorder();
    var pending := set id | id in db.tickets && InSection(db.tickets[id], eventId, sectionId);
    rows := [];
    while pending != {}
      invariant SortedBy(rows, SeatOrder)
      invariant forall id :: id in pending ==> id in db.tickets && InSection(db.tickets[id], eventId, sectionId)
      invariant forall r :: r in rows ==>
                  r.id in db.tickets && r.ticket == db.tickets[r.id] && InSection(r.ticket, eventId, sectionId)
      invariant forall r :: r in rows ==> r.id !in pending
      invariant forall r :: r in rows ==> multiset(rows)[r] == 1
      invariant forall id :: id in db.tickets && InSection(db.tickets[id], eventId, sectionId) ==>
                  id in pending || Row(id, db.tickets[id]) in rows
      decreases pending
    {
      var id :| id in pending;
      var row := Row(id, db.tickets[id]);
      InsertBySorted(rows, row, SeatOrder);
      var rows' := InsertBy(rows, row, SeatOrder);
      assert forall r :: r in rows' <==> r in rows || r == row by {
        assert forall r :: r in rows' <==> r in multiset(rows');
      }
      forall r | r in rows' ensures multiset(rows')[r] == 1 {
        if r == row {
          assert multiset(rows)[row] == 0;
        }
      }
      rows := rows';
      pending := pending - {id};
    }
    OnceEachNoDuplicates(rows);
  }
}
