/** Entities of the single-server queue: customers and the events that carry them. */
module Events {

  datatype Option<T> = None | Some(value: T)

  /** A customer: its number (-1 until its arrival is processed), the time it
      arrives, and the time it will depart once its service has been scheduled. */
  datatype Customer = Customer(customerNumber: int, arrivalTime: real, departureTime: Option<real>)

  datatype EventType = Arrival | Departure

  /** An event of the future event list. Events are compared by time only. */
  datatype Event = Event(eventType: EventType, eventTime: real, customer: Customer)

  /** `a > b` on events: a happens strictly later than b. */
  predicate Later(a: Event, b: Event)
  {
    a.eventTime > b.eventTime
  }

  /** `a == b` on events: both happen at the same time (whatever their type or customer). */
  predicate SameTime(a: Event, b: Event)
  {
    a.eventTime == b.eventTime
  }
}
