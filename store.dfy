/** The database the server actions work on: the records of types/index.ts
    and one table per record kind, held in memory by a `Database` object.
    Every statement of a server action becomes an update of these tables. */
module Store {
  import opened Common

  /** Row keys. The database generates them; here they come from `nextId`. */
  type Id = nat

  datatype TicketStatus = Available | Reserved | Sold

  /** A `tickets` row (without its key). `reservedAt` is a time in milliseconds. */
  datatype Ticket = Ticket(
    eventId: Id,
    sectionId: Id,
    seatNumber: string,
    userId: Option<Id>,
    orderId: Option<Id>,
    status: TicketStatus,
    reservedAt: Option<int>)

  /** A `tickets` row together with its key, as a query returns it. */
  datatype Row = Row(id: Id, ticket: Ticket)

  /** A `seating_sections` row; `price` is in cents. */
  datatype Section = Section(eventId: Id, sectionName: string, price: int, totalSeats: int)

  datatype SectionRow = SectionRow(id: Id, section: Section)

  /** An `events` row; `eventDate` is a day number, `updatedAt` a time in milliseconds. */
  datatype Event = Event(
    name: string,
    description: string,
    eventDate: int,
    eventTime: string,
    venue: string,
    createdBy: Id,
    updatedAt: int)

  datatype PaymentStatus = Pending | Completed | PaymentFailed

  /** An `orders` row; `totalAmount` is in cents. */
  datatype Order = Order(userId: Id, totalAmount: int, paymentStatus: PaymentStatus, paymentMethod: string)

  /** An `order_items` row. */
  datatype OrderItem = OrderItem(orderId: Id, ticketId: Id, price: int)

  /** Who may hold a seat in each state: nobody while it is available, one
      buyer with a hold time while it is reserved, and one buyer with an
      order once it is sold. */
  predicate Consistent(t: Ticket) {
    match t.status
    case Available => t.userId.None? && t.reservedAt.None? && t.orderId.None?
    case Reserved => t.userId.Some? && t.reservedAt.Some? && t.orderId.None?
    case Sold => t.userId.Some? && t.reservedAt.None? && t.orderId.Some?
  }

  /** A seat belongs to an existing section of its own event, is in a
      consistent state, and a sold seat names an existing order. */
  predicate TicketValid(t: Ticket, sections: map<Id, Section>, orders: map<Id, Order>) {
    && t.sectionId in sections
    && sections[t.sectionId].eventId == t.eventId
    && Consistent(t)
    && (t.orderId.Some? ==> t.orderId.value in orders)
  }

  /** Referential integrity (every foreign key names an existing row), key
      freshness (every key is below `nextId`) and the seat-status invariant. */
  predicate TablesValid(
    events: map<Id, Event>,
    sections: map<Id, Section>,
    tickets: map<Id, Ticket>,
    orders: map<Id, Order>,
    orderItems: seq<OrderItem>,
    nextId: Id)
  {
    && (forall id :: id in events ==> id < nextId)
    && (forall id :: id in sections ==> id < nextId && sections[id].eventId in events)
    && (forall id :: id in tickets ==> id < nextId && TicketValid(tickets[id], sections, orders))
    && (forall id :: id in orders ==> id < nextId)
    && (forall i :: 0 <= i < |orderItems| ==> orderItems[i].orderId in orders && orderItems[i].ticketId in tickets)
  }

  /** Every foreign key of a seat resolves: its event, its section (which
      belongs to that same event) and, once sold, its order. */
  lemma TicketKeysResolve(
    events: map<Id, Event>, sections: map<Id, Section>, tickets: map<Id, Ticket>,
    orders: map<Id, Order>, orderItems: seq<OrderItem>, nextId: Id, id: Id)
    requires TablesValid(events, sections, tickets, orders, orderItems, nextId)
    requires id in tickets
    ensures tickets[id].eventId in events
    ensures tickets[id].sectionId in sections && sections[tickets[id].sectionId].eventId == tickets[id].eventId
    ensures tickets[id].orderId.Some? ==> tickets[id].orderId.value in orders
  {
  }

  class Database {
    /** How long a hold protects a seat, in milliseconds (10 000 in the server code). */
    const holdMs: nat

    var events: map<Id, Event>
    var sections: map<Id, Section>
    var tickets: map<Id, Ticket>
    var orders: map<Id, Order>
    var orderItems: seq<OrderItem>
    var nextId: Id

    ghost predicate Valid()
      reads this
    {
      TablesValid(events, sections, tickets, orders, orderItems, nextId)
    }

    constructor (holdMs: nat)
      ensures Valid() && this.holdMs == holdMs
      ensures events == map[] && sections == map[] && tickets == map[] && orders == map[]
      ensures orderItems == [] && nextId == 0
    {
      this.holdMs := holdMs;
      events, sections, tickets, orders := map[], map[], map[], map[];
      orderItems, nextId := [], 0;
    }
  }
}
