/** The simulation state as a value, the effect of each handler on it, and the
    invariants every handler preserves.

    The random durations are inputs: interarrival(n) is the gap drawn after customer n
    arrives, service(n) is the service duration drawn for customer n. */
module Transitions {
  import opened Events
  import opened FutureEventList
  import opened Schedule

  /** One printed line: a customer's number and a duration. */
  datatype Report = Report(customerNumber: int, time: real)

  datatype Samples = Samples(interarrival: int -> real, service: int -> real)

  datatype SimState = SimState(
    clock: real,
    numInService: nat,
    customerQueue: seq<Customer>,
    futureEventList: multiset<Event>,
    customersArrived: nat,
    customersServed: nat,
    waitTimeLog: seq<Report>,
    systemTimeLog: seq<Report>)

  // -----------------------------------------------------------------------------------
  // The handlers, as functions of the state.

  /** Conservation of customers: every customer that arrived has departed, is in
      service or waits; at most one is in service, and the server idles only when
      nobody waits. */
  predicate Conserved(s: SimState)
  {
    && s.numInService <= 1
    && |s.customerQueue| + s.customersServed + s.numInService == s.customersArrived
    && (s.numInService == 0 ==> s.customerQueue == [])
  }

  /** The system at time 0: empty, nothing scheduled, nothing counted. */
  function Initial(): (s: SimState)
    ensures Conserved(s) && s.clock == 0.0 && |s.futureEventList| == 0
  {
    SimState(0.0, 0, [], multiset{}, 0, 0, [], [])
  }

  /** The arrival event of a customer not yet numbered. */
  function ArrivalAt(t: real): Event
  {
    Event(Arrival, t, Customer(-1, t, None))
  }

  /** scheduleArrival: the first customer arrives at time 0, every later one an
      interarrival time after the current clock. */
  function ScheduledArrival(d: Samples, s: SimState): (r: SimState)
    ensures |r.futureEventList| == |s.futureEventList| + 1
    ensures r.clock == s.clock && r.numInService == s.numInService && r.customerQueue == s.customerQueue
    ensures r.customersArrived == s.customersArrived && r.customersServed == s.customersServed
    ensures r.waitTimeLog == s.waitTimeLog && r.systemTimeLog == s.systemTimeLog
  {
    var t := if s.customersArrived == 0 then 0.0 else s.clock + d.interarrival(s.customersArrived);
    s.(futureEventList := s.futureEventList + multiset{ArrivalAt(t)})
  }

  /** scheduleDeparture: the head of the queue enters service; its wait is reported
      and its departure scheduled one service time from now. */
  function ScheduledDeparture(d: Samples, s: SimState): (r: SimState)
    requires |s.customerQueue| > 0
    ensures |r.customerQueue| + 1 == |s.customerQueue| && r.numInService == 1
    ensures s.waitTimeLog <= r.waitTimeLog && |r.waitTimeLog| == |s.waitTimeLog| + 1
    ensures |r.futureEventList| == |s.futureEventList| + 1
    ensures r.clock == s.clock && r.customersArrived == s.customersArrived && r.customersServed == s.customersServed
    ensures r.systemTimeLog == s.systemTimeLog
  {
    var c := s.customerQueue[0];
    var t := s.clock + d.service(c.customerNumber);
    s.(customerQueue := s.customerQueue[1..],
       waitTimeLog := s.waitTimeLog + [Report(c.customerNumber, s.clock - c.arrivalTime)],
       futureEventList := s.futureEventList + multiset{Event(Departure, t, c.(departureTime := Some(t)))},
       numInService := 1)
  }

  /** handleArrival: number the customer, queue it, serve it at once if the server
      idles, count it, and schedule the next arrival. */
  function AfterArrival(d: Samples, s: SimState, e: Event): (r: SimState)
    ensures Conserved(s) ==> Conserved(r)
    ensures r.customersArrived == s.customersArrived + 1 && r.customersServed == s.customersServed
    ensures r.clock == s.clock && (s.numInService <= 1 ==> r.numInService == 1)
    ensures |r.futureEventList| == |s.futureEventList| + (if s.numInService == 0 then 2 else 1)
    ensures s.waitTimeLog <= r.waitTimeLog && r.systemTimeLog == s.systemTimeLog
  {
    var c := e.customer.(customerNumber := s.customersArrived + 1);
    var s1 := s.(customerQueue := s.customerQueue + [c]);
    var s2 := if s1.numInService == 0 then ScheduledDeparture(d, s1) else s1;
    ScheduledArrival(d, s2.(customersArrived := s2.customersArrived + 1))
  }

  /** handleDeparture: report the customer's time in the system, serve the next
      waiting customer or idle the server, and count the departure. */
  function AfterDeparture(d: Samples, s: SimState, e: Event): (r: SimState)
    requires e.customer.departureTime.Some?
    ensures Conserved(s) && s.numInService == 1 ==> Conserved(r)
    ensures r.customersServed == s.customersServed + 1 && r.customersArrived == s.customersArrived
    ensures r.clock == s.clock && (r.numInService == 1 <==> |s.customerQueue| > 0)
    ensures s.systemTimeLog <= r.systemTimeLog && |r.systemTimeLog| == |s.systemTimeLog| + 1
    ensures s.waitTimeLog <= r.waitTimeLog
  {
    var c := e.customer;
    var s1 := s.(systemTimeLog := s.systemTimeLog + [Report(c.customerNumber, c.departureTime.value - c.arrivalTime)]);
    var s2 := if |s1.customerQueue| > 0 then ScheduledDeparture(d, s1) else s1.(numInService := 0);
    s2.(customersServed := s2.customersServed + 1)
  }

  /** Scheduling and handling only add events to the future event list: every event
      pending before is still pending after. */
  lemma HandlersOnlyAddEvents(d: Samples, s: SimState, e: Event)
    ensures s.futureEventList <= ScheduledArrival(d, s).futureEventList
    ensures |s.customerQueue| > 0 ==> s.futureEventList <= ScheduledDeparture(d, s).futureEventList
    ensures s.futureEventList <= AfterArrival(d, s, e).futureEventList
    ensures e.customer.departureTime.Some? ==> s.futureEventList <= AfterDeparture(d, s, e).futureEventList
  {
  }

  /** handleArrival, step by step as the simulation object performs it. */
  lemma HandledArrival(d: Samples, s: SimState, e: Event, s1: SimState, s2: SimState, s3: SimState, s4: SimState)
    requires s1 == s.(customerQueue := s.customerQueue + [e.customer.(customerNumber := s.customersArrived + 1)])
    requires s2 == if s1.numInService == 0 then ScheduledDeparture(d, s1) else s1
    requires s3 == s2.(customersArrived := s2.customersArrived + 1)
    requires s4 == ScheduledArrival(d, s3)
    ensures s4 == AfterArrival(d, s, e)
  {
  }

  /** handleDeparture, step by step as the simulation object performs it. */
  lemma HandledDeparture(d: Samples, s: SimState, e: Event, s1: SimState, s2: SimState, s3: SimState)
    requires e.customer.departureTime.Some?
    requires s1 == s.(systemTimeLog := s.systemTimeLog
                        + [Report(e.customer.customerNumber, e.customer.departureTime.value - e.customer.arrivalTime)])
    requires s2 == if |s1.customerQueue| > 0 then ScheduledDeparture(d, s1) else s1.(numInService := 0)
    requires s3 == s2.(customersServed := s2.customersServed + 1)
    ensures s3 == AfterDeparture(d, s, e)
  {
  }

  // -----------------------------------------------------------------------------------
  // What the state is at every event boundary, according to the reference schedule.

  ghost predicate SamplesNonNegative(d: Samples)
  {
    NonNegative(d.interarrival) && NonNegative(d.service)
  }

  /** Customer n as it waits in the queue: numbered, not yet given a departure time. */
  function QueuedCustomer(d: Samples, n: nat): Customer
    requires n >= 1
  {
    Customer(n, ArrivalTime(d.interarrival, n), None)
  }

  /** The customers numbered first + 1 .. last, in that order. */
  function Waiting(d: Samples, first: nat, last: nat): (q: seq<Customer>)
    requires first <= last
    ensures |q| == last - first
    decreases last - first
  {
    if first == last then [] else Waiting(d, first, last - 1) + [QueuedCustomer(d, last)]
  }

  /** The wait reports of customers 1 .. m. */
  function WaitLog(d: Samples, m: nat): (log: seq<Report>)
    ensures |log| == m
  {
    if m == 0 then [] else WaitLog(d, m - 1) + [Report(m, WaitTime(d.interarrival, d.service, m))]
  }

  /** The system-time reports of customers 1 .. m. */
  function SystemLog(d: Samples, m: nat): (log: seq<Report>)
    ensures |log| == m
  {
    if m == 0 then [] else SystemLog(d, m - 1) + [Report(m, SystemTime(d.interarrival, d.service, m))]
  }

  /** The arrival event of customer n, before it is numbered. */
  function ArrivalOf(d: Samples, n: nat): Event
    requires n >= 1
  {
    ArrivalAt(ArrivalTime(d.interarrival, n))
  }

  /** The departure event of customer n, once it is in service. */
  function DepartureOf(d: Samples, n: nat): Event
    requires n >= 1
  {
    var t := DepartureTime(d.interarrival, d.service, n);
    Event(Departure, t, Customer(n, ArrivalTime(d.interarrival, n), Some(t)))
  }

  /** The pending events: the next customer's arrival, and the departure of the
      customer in service if there is one. */
  function Pending(d: Samples, arrived: nat, served: nat, numInService: nat): multiset<Event>
  {
    multiset{ArrivalOf(d, arrived + 1)}
      + if numInService == 1 then multiset{DepartureOf(d, served + 1)} else multiset{}
  }

  /** Everything but the future event list agrees with the reference schedule. */
  ghost predicate Consistent(d: Samples, s: SimState)
  {
    && SamplesNonNegative(d)
    && s.numInService <= 1
    && s.customersServed + s.numInService <= s.customersArrived
    && (s.numInService == 0 ==> s.customersServed == s.customersArrived)
    && s.customerQueue == Waiting(d, s.customersServed + s.numInService, s.customersArrived)
    && s.waitTimeLog == WaitLog(d, s.customersServed + s.numInService)
    && s.systemTimeLog == SystemLog(d, s.customersServed)
    && 0.0 <= s.clock
    && (s.customersArrived >= 1 ==> ArrivalTime(d.interarrival, s.customersArrived) <= s.clock)
    && (s.customersServed >= 1 ==> DepartureTime(d.interarrival, d.service, s.customersServed) <= s.clock)
  }

  /** No pending event lies in the past. */
  ghost predicate NothingOverdue(d: Samples, s: SimState)
  {
    && s.clock <= ArrivalTime(d.interarrival, s.customersArrived + 1)
    && (s.numInService == 1 ==> s.clock <= DepartureTime(d.interarrival, d.service, s.customersServed + 1))
  }

  /** The state at every event boundary. */
  ghost predicate Valid(d: Samples, s: SimState)
  {
    Consistent(d, s) && s.futureEventList == Pending(d, s.customersArrived, s.customersServed, s.numInService) && NothingOverdue(d, s)
  }

  /** The state just after `e` was taken from the future event list and the clock
      advanced to its time, before `e` is handled. */
  ghost predicate Popped(d: Samples, s: SimState, e: Event)
  {
    && Consistent(d, s)
    && e in Pending(d, s.customersArrived, s.customersServed, s.numInService)
    && s.futureEventList == Pending(d, s.customersArrived, s.customersServed, s.numInService) - multiset{e}
    && s.clock == e.eventTime
    && NothingOverdue(d, s)
  }

  // -----------------------------------------------------------------------------------
  // Small facts about the reference sequences.

  /** Appending the next arrival to the queue. */
  lemma WaitingGrows(d: Samples, first: nat, last: nat)
    requires first <= last
    ensures Waiting(d, first, last) + [QueuedCustomer(d, last + 1)] == Waiting(d, first, last + 1)
  {
  }

  /** Taking the head off the queue. */
  lemma {:induction false} WaitingShrinks(d: Samples, first: nat, last: nat)
    requires first < last
    ensures Waiting(d, first, last)[0] == QueuedCustomer(d, first + 1)
    ensures Waiting(d, first, last)[1..] == Waiting(d, first + 1, last)
    decreases last - first
  {
    if first + 1 < last {
      WaitingShrinks(d, first, last - 1);
      var w := Waiting(d, first, last - 1);
      assert Waiting(d, first, last) == w + [QueuedCustomer(d, last)];
      assert (w + [QueuedCustomer(d, last)])[1..] == w[1..] + [QueuedCustomer(d, last)];
    }
  }

  /** The i-th waiting customer is customer first + i + 1. */
  lemma {:induction false} WaitingAt(d: Samples, first: nat, last: nat, i: nat)
    requires first <= last && i < last - first
    ensures Waiting(d, first, last)[i] == QueuedCustomer(d, first + i + 1)
    decreases last - first
  {
    if i < last - first - 1 {
      WaitingAt(d, first, last - 1, i);
    }
  }

  /** The i-th wait report is that of customer i + 1. */
  lemma {:induction false} WaitLogAt(d: Samples, m: nat, i: nat)
    requires i < m
    ensures WaitLog(d, m)[i] == Report(i + 1, WaitTime(d.interarrival, d.service, i + 1))
  {
    if i < m - 1 {
      WaitLogAt(d, m - 1, i);
    }
  }

  /** The i-th system-time report is that of customer i + 1. */
  lemma {:induction false} SystemLogAt(d: Samples, m: nat, i: nat)
    requires i < m
    ensures SystemLog(d, m)[i] == Report(i + 1, SystemTime(d.interarrival, d.service, i + 1))
  {
    if i < m - 1 {
      SystemLogAt(d, m - 1, i);
    }
  }

  /** Each log grows by the report of the next customer. */
  lemma WaitLogGrows(d: Samples, m: nat)
    ensures WaitLog(d, m) + [Report(m + 1, WaitTime(d.interarrival, d.service, m + 1))] == WaitLog(d, m + 1)
  {
  }

  lemma SystemLogGrows(d: Samples, m: nat)
    ensures SystemLog(d, m) + [Report(m + 1, SystemTime(d.interarrival, d.service, m + 1))] == SystemLog(d, m + 1)
  {
  }

  // -----------------------------------------------------------------------------------
  // The invariant holds after start and is preserved by taking an earliest event and
  // handling it.

  /** start: after resetting the state and scheduling the first arrival (at time 0),
      the state is valid. */
  lemma StartIsValid(d: Samples)
    requires SamplesNonNegative(d)
    ensures Valid(d, ScheduledArrival(d, Initial()))
  {
    var s := ScheduledArrival(d, Initial());
    assert s.futureEventList == multiset{} + multiset{ArrivalAt(0.0)};
    assert ArrivalOf(d, 1) == ArrivalAt(0.0);
  }

  /** Exactly one arrival is pending, and as many departures as customers in service;
      so `get` is never called on an empty future event list. */
  lemma PendingEvents(d: Samples, s: SimState)
    requires s.futureEventList == Pending(d, s.customersArrived, s.customersServed, s.numInService) && s.numInService <= 1
    ensures |s.futureEventList| == 1 + s.numInService
    ensures s.futureEventList[ArrivalOf(d, s.customersArrived + 1)] == 1
    ensures forall x | x in s.futureEventList && x.eventType == Arrival :: x == ArrivalOf(d, s.customersArrived + 1)
    ensures s.numInService == 1 ==> s.futureEventList[DepartureOf(d, s.customersServed + 1)] == 1
    ensures forall x | x in s.futureEventList && x.eventType == Departure ::
      s.numInService == 1 && x == DepartureOf(d, s.customersServed + 1)
  {
  }

  /** Advancing the clock keeps a consistent state consistent; the future event list
      plays no part in consistency. */
  lemma ClockMovesOn(d: Samples, s: SimState, t: real, fel: multiset<Event>)
    requires Consistent(d, s) && s.clock <= t
    ensures Consistent(d, s.(futureEventList := fel, clock := t))
  {
  }

  /** An earliest pending event is not later than the next arrival nor than the
      pending departure, and it is one of the two the schedule predicts. */
  lemma EarliestIsScheduled(d: Samples, s: SimState, e: Event)
    requires s.futureEventList == Pending(d, s.customersArrived, s.customersServed, s.numInService)
    requires e in s.futureEventList && IsEarliest(e, s.futureEventList)
    ensures e.eventTime <= ArrivalTime(d.interarrival, s.customersArrived + 1)
    ensures s.numInService == 1 ==> e.eventTime <= DepartureTime(d.interarrival, d.service, s.customersServed + 1)
    ensures e.eventType == Arrival ==> e == ArrivalOf(d, s.customersArrived + 1)
    ensures e.eventType == Departure ==> s.numInService == 1 && e == DepartureOf(d, s.customersServed + 1)
  {
    assert ArrivalOf(d, s.customersArrived + 1) in s.futureEventList;
    if s.numInService == 1 {
      assert DepartureOf(d, s.customersServed + 1) in s.futureEventList;
    }
  }

  /** Taking an earliest pending event and advancing the clock to it: the clock does
      not go back, and the event is one of the two the schedule predicts. */
  lemma TakeEarliest(d: Samples, s: SimState, e: Event)
    requires Valid(d, s)
    requires e in s.futureEventList && IsEarliest(e, s.futureEventList)
    ensures s.clock <= e.eventTime
    ensures Popped(d, s.(futureEventList := s.futureEventList - multiset{e}, clock := e.eventTime), e)
    ensures e.eventType == Arrival ==> e == ArrivalOf(d, s.customersArrived + 1)
    ensures e.eventType == Departure ==> s.numInService == 1 && e == DepartureOf(d, s.customersServed + 1)
  {
    EarliestIsScheduled(d, s, e);
    ClockMovesOn(d, s, e.eventTime, s.futureEventList - multiset{e});
  }

  /** Customer n arriving to an idle server starts service at once. */
  lemma ServiceStartsOnArrival(d: Samples, s: SimState, n: nat)
    requires Consistent(d, s) && s.numInService == 0 && n == s.customersArrived + 1
    requires s.clock == ArrivalTime(d.interarrival, n)
    ensures ServiceStart(d.interarrival, d.service, n) == s.clock
    ensures WaitTime(d.interarrival, d.service, n) == s.clock - ArrivalTime(d.interarrival, n)
  {
  }

  /** When customer n leaves while customer n + 1 waits, n + 1 starts service now. */
  lemma ServiceStartsOnDeparture(d: Samples, s: SimState, n: nat)
    requires Consistent(d, s) && s.numInService == 1 && n == s.customersServed + 1
    requires s.clock == DepartureTime(d.interarrival, d.service, n)
    requires n + 1 <= s.customersArrived
    ensures ServiceStart(d.interarrival, d.service, n + 1) == s.clock
    ensures WaitTime(d.interarrival, d.service, n + 1) == s.clock - ArrivalTime(d.interarrival, n + 1)
  {
    ArrivalsInOrder(d.interarrival, n + 1, s.customersArrived);
  }

  /** scheduleDeparture for customer n when its service starts now: its wait is the
      next wait report and its departure the one the schedule predicts. */
  lemma DepartureScheduled(d: Samples, s: SimState, n: nat)
    requires n >= 1 && |s.customerQueue| > 0 && s.customerQueue[0] == QueuedCustomer(d, n)
    requires s.waitTimeLog == WaitLog(d, n - 1) && s.clock == ServiceStart(d.interarrival, d.service, n)
    ensures ScheduledDeparture(d, s) == s.(customerQueue := s.customerQueue[1..], waitTimeLog := WaitLog(d, n),
                                           futureEventList := s.futureEventList + multiset{DepartureOf(d, n)},
                                           numInService := 1)
  {
    WaitLogGrows(d, n - 1);
  }

  /** scheduleArrival after customer n arrived now: the next arrival is the one the
      schedule predicts. */
  lemma ArrivalScheduled(d: Samples, s: SimState, n: nat)
    requires n >= 1 && s.customersArrived == n && s.clock == ArrivalTime(d.interarrival, n)
    ensures ScheduledArrival(d, s) == s.(futureEventList := s.futureEventList + multiset{ArrivalOf(d, n + 1)})
  {
  }

  /** An arrival to an idle server: the customer is served at once and leaves one
      service time from now; the next arrival is one interarrival time from now. */
  lemma ArrivalToIdleServer(d: Samples, s: SimState, e: Event, n: nat)
    requires n == s.customersArrived + 1 && s.numInService == 0
    requires s.customerQueue == [] && s.futureEventList == multiset{} && s.waitTimeLog == WaitLog(d, n - 1)
    requires e == ArrivalOf(d, n) && s.clock == ArrivalTime(d.interarrival, n)
    requires ServiceStart(d.interarrival, d.service, n) == s.clock
    ensures AfterArrival(d, s, e) == SimState(s.clock, 1, [], multiset{DepartureOf(d, n), ArrivalOf(d, n + 1)},
                                              n, s.customersServed, WaitLog(d, n), s.systemTimeLog)
  {
    var c := QueuedCustomer(d, n);
    assert e.customer.(customerNumber := n) == c;
    var s1 := s.(customerQueue := [c]);
    DepartureScheduled(d, s1, n);
    assert [c][1..] == [];
    var s2 := ScheduledDeparture(d, s1);
    ArrivalScheduled(d, s2.(customersArrived := n), n);
    assert multiset{} + multiset{DepartureOf(d, n)} + multiset{ArrivalOf(d, n + 1)}
        == multiset{DepartureOf(d, n), ArrivalOf(d, n + 1)};
  }

  /** An arrival to a busy server: the customer joins the tail of the queue; the next
      arrival is one interarrival time from now. */
  lemma ArrivalToBusyServer(d: Samples, s: SimState, e: Event, n: nat)
    requires n == s.customersArrived + 1 && s.numInService == 1
    requires s.futureEventList == multiset{DepartureOf(d, s.customersServed + 1)}
    requires e == ArrivalOf(d, n) && s.clock == ArrivalTime(d.interarrival, n)
    ensures AfterArrival(d, s, e) == SimState(s.clock, 1, s.customerQueue + [QueuedCustomer(d, n)],
                                              multiset{DepartureOf(d, s.customersServed + 1), ArrivalOf(d, n + 1)},
                                              n, s.customersServed, s.waitTimeLog, s.systemTimeLog)
  {
    assert ArrivalTime(d.interarrival, n + 1) == s.clock + d.interarrival(n);
  }

  /** The state after an arrival to an idle server is valid. */
  lemma ValidAfterIdleArrival(d: Samples, s: SimState, n: nat)
    requires Consistent(d, s) && s.numInService == 0 && n == s.customersArrived + 1
    requires s.clock == ArrivalTime(d.interarrival, n)
    ensures Valid(d, SimState(s.clock, 1, [], multiset{DepartureOf(d, n), ArrivalOf(d, n + 1)},
                              n, n - 1, WaitLog(d, n), s.systemTimeLog))
  {
    var t := SimState(s.clock, 1, [], multiset{DepartureOf(d, n), ArrivalOf(d, n + 1)},
                      n, n - 1, WaitLog(d, n), s.systemTimeLog);
    ServiceStartsOnArrival(d, s, n);
    assert d.service(n) >= 0.0 && d.interarrival(n) >= 0.0;
    assert ArrivalTime(d.interarrival, n + 1) == s.clock + d.interarrival(n);
    assert t.customerQueue == Waiting(d, n, n);
    assert Consistent(d, t);
    assert multiset{DepartureOf(d, n), ArrivalOf(d, n + 1)} == multiset{ArrivalOf(d, n + 1)} + multiset{DepartureOf(d, n)};
  }

  /** The state after an arrival to a busy server is valid. */
  lemma ValidAfterBusyArrival(d: Samples, s: SimState, n: nat)
    requires Consistent(d, s) && NothingOverdue(d, s) && s.numInService == 1 && n == s.customersArrived + 1
    requires s.clock == ArrivalTime(d.interarrival, n)
    ensures Valid(d, SimState(s.clock, 1, s.customerQueue + [QueuedCustomer(d, n)],
                              multiset{DepartureOf(d, s.customersServed + 1), ArrivalOf(d, n + 1)},
                              n, s.customersServed, s.waitTimeLog, s.systemTimeLog))
  {
    var t := SimState(s.clock, 1, s.customerQueue + [QueuedCustomer(d, n)],
                      multiset{DepartureOf(d, s.customersServed + 1), ArrivalOf(d, n + 1)},
                      n, s.customersServed, s.waitTimeLog, s.systemTimeLog);
    WaitingGrows(d, s.customersServed + 1, n - 1);
    assert d.interarrival(n) >= 0.0;
    assert ArrivalTime(d.interarrival, n + 1) == s.clock + d.interarrival(n);
    assert Consistent(d, t);
    assert t.futureEventList == multiset{ArrivalOf(d, n + 1)} + multiset{DepartureOf(d, s.customersServed + 1)};
  }

  /** handleArrival with the server idle keeps the state valid and makes it busy. */
  lemma IdleArrivalPreservesValid(d: Samples, s: SimState, e: Event)
    requires Popped(d, s, e) && e.eventType == Arrival && s.numInService == 0
    ensures Valid(d, AfterArrival(d, s, e))
    ensures AfterArrival(d, s, e).customersArrived == s.customersArrived + 1
    ensures AfterArrival(d, s, e).customersServed == s.customersServed
    ensures AfterArrival(d, s, e).numInService == 1
    ensures AfterArrival(d, s, e).clock == s.clock
  {
    var n := s.customersArrived + 1;
    assert e == ArrivalOf(d, n);
    ServiceStartsOnArrival(d, s, n);
    assert s.futureEventList == multiset{};
    assert s.customersServed == n - 1;
    ArrivalToIdleServer(d, s, e, n);
    ValidAfterIdleArrival(d, s, n);
  }

  /** handleArrival with the server busy keeps the state valid. */
  lemma BusyArrivalPreservesValid(d: Samples, s: SimState, e: Event)
    requires Popped(d, s, e) && e.eventType == Arrival && s.numInService == 1
    ensures Valid(d, AfterArrival(d, s, e))
    ensures AfterArrival(d, s, e).customersArrived == s.customersArrived + 1
    ensures AfterArrival(d, s, e).customersServed == s.customersServed
    ensures AfterArrival(d, s, e).numInService == 1
    ensures AfterArrival(d, s, e).clock == s.clock
  {
    var n := s.customersArrived + 1;
    assert e == ArrivalOf(d, n);
    assert s.futureEventList == multiset{DepartureOf(d, s.customersServed + 1)};
    ArrivalToBusyServer(d, s, e, n);
    ValidAfterBusyArrival(d, s, n);
  }

  /** handleArrival keeps the state valid: the customer gets the next number, joins the
      queue (or is served at once by an idle server), and the next arrival is scheduled. */
  lemma ArrivalPreservesValid(d: Samples, s: SimState, e: Event)
    requires Popped(d, s, e) && e.eventType == Arrival
    ensures Valid(d, AfterArrival(d, s, e))
    ensures AfterArrival(d, s, e).customersArrived == s.customersArrived + 1
    ensures AfterArrival(d, s, e).customersServed == s.customersServed
    ensures AfterArrival(d, s, e).numInService == 1
    ensures AfterArrival(d, s, e).clock == s.clock
  {
    if s.numInService == 0 {
      IdleArrivalPreservesValid(d, s, e);
    } else {
      BusyArrivalPreservesValid(d, s, e);
    }
  }

  /** A departure while customers wait: the head of the queue starts service now. */
  lemma DepartureToWaitingCustomer(d: Samples, s: SimState, e: Event, n: nat)
    requires n == s.customersServed + 1 && |s.customerQueue| > 0 && s.customerQueue[0] == QueuedCustomer(d, n + 1)
    requires s.futureEventList == multiset{ArrivalOf(d, s.customersArrived + 1)}
    requires e == DepartureOf(d, n) && s.clock == DepartureTime(d.interarrival, d.service, n)
    requires ServiceStart(d.interarrival, d.service, n + 1) == s.clock
    requires s.waitTimeLog == WaitLog(d, n) && s.systemTimeLog == SystemLog(d, n - 1)
    ensures e.customer.departureTime.Some?
    ensures AfterDeparture(d, s, e) == SimState(s.clock, 1, s.customerQueue[1..],
                                                multiset{ArrivalOf(d, s.customersArrived + 1), DepartureOf(d, n + 1)},
                                                s.customersArrived, n, WaitLog(d, n + 1), SystemLog(d, n))
  {
    SystemLogGrows(d, n - 1);
    var s1 := s.(systemTimeLog := SystemLog(d, n));
    assert AfterDeparture(d, s, e) == ScheduledDeparture(d, s1).(customersServed := n);
    DepartureScheduled(d, s1, n + 1);
    assert multiset{ArrivalOf(d, s.customersArrived + 1)} + multiset{DepartureOf(d, n + 1)}
        == multiset{ArrivalOf(d, s.customersArrived + 1), DepartureOf(d, n + 1)};
  }

  /** A departure with nobody waiting: the server idles. */
  lemma DepartureToEmptyQueue(d: Samples, s: SimState, e: Event, n: nat)
    requires n == s.customersServed + 1 && s.customerQueue == []
    requires e == DepartureOf(d, n) && s.systemTimeLog == SystemLog(d, n - 1)
    ensures e.customer.departureTime.Some?
    ensures AfterDeparture(d, s, e) == SimState(s.clock, 0, [], s.futureEventList,
                                                s.customersArrived, n, s.waitTimeLog, SystemLog(d, n))
  {
    SystemLogGrows(d, n - 1);
  }

  /** The state after a departure that starts the next service is valid. */
  lemma ValidAfterDepartureToWaiting(d: Samples, s: SimState, n: nat)
    requires Consistent(d, s) && NothingOverdue(d, s) && s.numInService == 1 && n == s.customersServed + 1
    requires |s.customerQueue| > 0 && s.clock == DepartureTime(d.interarrival, d.service, n)
    ensures Valid(d, SimState(s.clock, 1, s.customerQueue[1..],
                              multiset{ArrivalOf(d, s.customersArrived + 1), DepartureOf(d, n + 1)},
                              s.customersArrived, n, WaitLog(d, n + 1), SystemLog(d, n)))
  {
    var t := SimState(s.clock, 1, s.customerQueue[1..],
                      multiset{ArrivalOf(d, s.customersArrived + 1), DepartureOf(d, n + 1)},
                      s.customersArrived, n, WaitLog(d, n + 1), SystemLog(d, n));
    ServiceStartsOnDeparture(d, s, n);
    WaitingShrinks(d, n, s.customersArrived);
    assert d.service(n + 1) >= 0.0;
    assert Consistent(d, t);
    assert t.futureEventList == multiset{ArrivalOf(d, s.customersArrived + 1)} + multiset{DepartureOf(d, n + 1)};
  }

  /** The state after a departure that idles the server is valid. */
  lemma ValidAfterDepartureToEmpty(d: Samples, s: SimState, n: nat)
    requires Consistent(d, s) && NothingOverdue(d, s) && s.numInService == 1 && n == s.customersServed + 1
    requires |s.customerQueue| == 0 && s.clock == DepartureTime(d.interarrival, d.service, n)
    ensures Valid(d, SimState(s.clock, 0, [], multiset{ArrivalOf(d, s.customersArrived + 1)},
                              s.customersArrived, n, s.waitTimeLog, SystemLog(d, n)))
  {
  }

  /** handleDeparture with customers waiting keeps the state valid. */
  lemma DepartureToWaitingPreservesValid(d: Samples, s: SimState, e: Event)
    requires Popped(d, s, e) && e.eventType == Departure && |s.customerQueue| > 0
    ensures e.customer.departureTime.Some?
    ensures Valid(d, AfterDeparture(d, s, e))
    ensures AfterDeparture(d, s, e).customersServed == s.customersServed + 1
    ensures AfterDeparture(d, s, e).customersArrived == s.customersArrived
    ensures AfterDeparture(d, s, e).clock == s.clock
  {
    var n := s.customersServed + 1;
    assert e == DepartureOf(d, n);
    assert s.futureEventList == multiset{ArrivalOf(d, s.customersArrived + 1)};
    ServiceStartsOnDeparture(d, s, n);
    WaitingShrinks(d, n, s.customersArrived);
    DepartureToWaitingCustomer(d, s, e, n);
    ValidAfterDepartureToWaiting(d, s, n);
  }

  /** handleDeparture with nobody waiting keeps the state valid. */
  lemma DepartureToEmptyPreservesValid(d: Samples, s: SimState, e: Event)
    requires Popped(d, s, e) && e.eventType == Departure && |s.customerQueue| == 0
    ensures e.customer.departureTime.Some?
    ensures Valid(d, AfterDeparture(d, s, e))
    ensures AfterDeparture(d, s, e).customersServed == s.customersServed + 1
    ensures AfterDeparture(d, s, e).customersArrived == s.customersArrived
    ensures AfterDeparture(d, s, e).clock == s.clock
  {
    var n := s.customersServed + 1;
    assert e == DepartureOf(d, n);
    assert s.futureEventList == multiset{ArrivalOf(d, s.customersArrived + 1)};
    DepartureToEmptyQueue(d, s, e, n);
    ValidAfterDepartureToEmpty(d, s, n);
  }

  /** handleDeparture keeps the state valid: the customer in service leaves, and the
      next waiting customer (if any) starts service. */
  lemma DeparturePreservesValid(d: Samples, s: SimState, e: Event)
    requires Popped(d, s, e) && e.eventType == Departure
    ensures e.customer.departureTime.Some?
    ensures Valid(d, AfterDeparture(d, s, e))
    ensures AfterDeparture(d, s, e).customersServed == s.customersServed + 1
    ensures AfterDeparture(d, s, e).customersArrived == s.customersArrived
    ensures AfterDeparture(d, s, e).clock == s.clock
  {
    if |s.customerQueue| > 0 {
      DepartureToWaitingPreservesValid(d, s, e);
    } else {
      DepartureToEmptyPreservesValid(d, s, e);
    }
  }

  /** One iteration of the run loop on a valid state s: it takes an earliest event e,
      moves the clock to it (state p) and handles the event (state t). The clock never
      goes back, the new state is valid, and the iteration makes progress: a customer
      departs, or an idle server becomes busy, or fewer arrivals remain before the
      pending departure. */
  lemma LoopStep(d: Samples, s: SimState, e: Event, p: SimState, t: SimState, minGap: real)
    requires Valid(d, s)
    requires e in s.futureEventList && IsEarliest(e, s.futureEventList)
    requires p == s.(futureEventList := s.futureEventList - multiset{e}, clock := e.eventTime)
    requires e.eventType == Arrival ==> t == AfterArrival(d, p, e)
    requires e.eventType == Departure ==> e.customer.departureTime.Some? && t == AfterDeparture(d, p, e)
    requires minGap > 0.0 && forall k :: d.interarrival(k) >= minGap
    ensures Valid(d, t) && s.clock <= t.clock
    ensures e.eventType == Arrival ==> t.customersServed == s.customersServed && t.numInService == 1
    ensures e.eventType == Arrival && s.numInService == 1 ==>
      ArrivalsBeforeDeparture(d, t, minGap) < ArrivalsBeforeDeparture(d, s, minGap)
    ensures e.eventType == Departure ==>
      t.customersServed == s.customersServed + 1 && t.clock == DepartureTime(d.interarrival, d.service, t.customersServed)
  {
    TakeEarliest(d, s, e);
    if e.eventType == Arrival {
      ArrivalPreservesValid(d, p, e);
      if s.numInService == 1 {
        ArrivalProgress(d, s, e, p, minGap);
      }
    } else {
      DeparturePreservesValid(d, p, e);
    }
  }

  /** The measure of ArrivalMakesProgress, taken before the clock moved. */
  lemma ArrivalProgress(d: Samples, s: SimState, e: Event, p: SimState, minGap: real)
    requires Popped(d, p, e) && e.eventType == Arrival && p.numInService == 1
    requires p == s.(futureEventList := s.futureEventList - multiset{e}, clock := e.eventTime)
    requires minGap > 0.0 && forall k :: d.interarrival(k) >= minGap
    ensures ArrivalsBeforeDeparture(d, AfterArrival(d, p, e), minGap) < ArrivalsBeforeDeparture(d, s, minGap)
  {
    ArrivalMakesProgress(d, p, e, minGap);
    assert ArrivalsBeforeDeparture(d, p, minGap) == ArrivalsBeforeDeparture(d, s, minGap);
  }

  // -----------------------------------------------------------------------------------
  // Properties of every event boundary.

  /** Conservation of customers, and the server idles only when nobody waits. */
  lemma Conservation(d: Samples, s: SimState)
    requires Valid(d, s)
    ensures Conserved(s)
  {
  }

  /** The queue holds consecutively numbered customers in order of arrival. */
  lemma QueueInArrivalOrder(d: Samples, s: SimState)
    requires Valid(d, s)
    ensures forall i | 0 <= i < |s.customerQueue| ::
      s.customerQueue[i].customerNumber == s.customersServed + s.numInService + i + 1
    ensures forall i, j | 0 <= i < j < |s.customerQueue| ::
      s.customerQueue[i].arrivalTime <= s.customerQueue[j].arrivalTime
  {
    var first := s.customersServed + s.numInService;
    forall i | 0 <= i < |s.customerQueue|
      ensures s.customerQueue[i].customerNumber == first + i + 1
    {
      WaitingAt(d, first, s.customersArrived, i);
    }
    forall i, j | 0 <= i < j < |s.customerQueue|
      ensures s.customerQueue[i].arrivalTime <= s.customerQueue[j].arrivalTime
    {
      WaitingAt(d, first, s.customersArrived, i);
      WaitingAt(d, first, s.customersArrived, j);
      ArrivalsInOrder(d.interarrival, first + i + 1, first + j + 1);
    }
  }

  /** Customers start service and leave in the order they arrived, numbered 1, 2, 3, ...;
      no wait is negative and no time in the system is shorter than the service. */
  lemma ReportsInOrder(d: Samples, s: SimState)
    requires Valid(d, s)
    ensures |s.waitTimeLog| == s.customersServed + s.numInService && |s.systemTimeLog| == s.customersServed
    ensures forall i | 0 <= i < |s.waitTimeLog| ::
      s.waitTimeLog[i].customerNumber == i + 1 && s.waitTimeLog[i].time >= 0.0
    ensures forall i | 0 <= i < |s.systemTimeLog| ::
      s.systemTimeLog[i].customerNumber == i + 1 && s.systemTimeLog[i].time >= d.service(i + 1)
  {
    forall i | 0 <= i < |s.waitTimeLog|
      ensures s.waitTimeLog[i].customerNumber == i + 1 && s.waitTimeLog[i].time >= 0.0
    {
      WaitLogAt(d, s.customersServed + s.numInService, i);
      ServiceAfterArrival(d.interarrival, d.service, i + 1);
    }
    forall i | 0 <= i < |s.systemTimeLog|
      ensures s.systemTimeLog[i].customerNumber == i + 1 && s.systemTimeLog[i].time >= d.service(i + 1)
    {
      SystemLogAt(d, s.customersServed, i);
      ServiceAfterArrival(d.interarrival, d.service, i + 1);
    }
  }

  // -----------------------------------------------------------------------------------
  // Termination of the run loop.

  /** How many steps of length g can be taken from x before it becomes negative. */
  function Steps(x: real, g: real): nat
    requires g > 0.0
    decreases StepBound(x, g)
  {
    if x < 0.0 then 0
    else
      StepBoundDecreases(x, g);
      1 + Steps(x - g, g)
  }

  /** The same count in closed form, which bounds the recursion of Steps. */
  function StepBound(x: real, g: real): nat
    requires g > 0.0
  {
    if x < 0.0 then 0
    else
      assert x / g >= 0.0;
      (x / g).Floor + 1
  }

  /** Dividing by g > 0, a step of length g is a step of length 1. */
  lemma DivideStep(x: real, g: real)
    requires g > 0.0
    ensures (x - g) / g == x / g - 1.0
  {
    assert (x - g) / g == x / g - g / g;
    assert g / g == 1.0;
  }

  /** StepBound, and so the recursion of Steps, goes down by one step. */
  lemma StepBoundDecreases(x: real, g: real)
    requires g > 0.0 && x >= 0.0
    ensures StepBound(x - g, g) < StepBound(x, g)
  {
    DivideStep(x, g);
  }

  /** Steps is monotone in the distance. */
  lemma {:induction false} StepsMonotone(y: real, x: real, g: real)
    requires g > 0.0 && y <= x
    ensures Steps(y, g) <= Steps(x, g)
    decreases StepBound(x, g)
  {
    if y >= 0.0 {
      StepBoundDecreases(x, g);
      StepsMonotone(y - g, x - g, g);
    }
  }

  /** Taking a step of at least g lowers the number of steps left. */
  lemma StepsDecrease(x: real, step: real, g: real)
    requires g > 0.0 && x >= 0.0 && step >= g
    ensures Steps(x - step, g) < Steps(x, g)
  {
    StepsMonotone(x - step, x - g, g);
  }

  /** While a customer is in service: how many more arrivals, each at least minGap
      after the previous one, can come before its departure. */
  function ArrivalsBeforeDeparture(d: Samples, s: SimState, minGap: real): nat
    requires minGap > 0.0
  {
    if s.numInService == 1 then
      Steps(DepartureTime(d.interarrival, d.service, s.customersServed + 1)
            - ArrivalTime(d.interarrival, s.customersArrived + 1), minGap)
    else 0
  }

  /** An arrival handled while the server is busy brings the pending departure closer
      in the number of arrivals that can precede it. */
  lemma ArrivalMakesProgress(d: Samples, s: SimState, e: Event, minGap: real)
    requires Popped(d, s, e) && e.eventType == Arrival && s.numInService == 1
    requires minGap > 0.0 && forall k :: d.interarrival(k) >= minGap
    ensures ArrivalsBeforeDeparture(d, AfterArrival(d, s, e), minGap) < ArrivalsBeforeDeparture(d, s, minGap)
  {
    ArrivalPreservesValid(d, s, e);
    var n := s.customersArrived + 1;
    var a := ArrivalTime(d.interarrival, n);
    var t := DepartureTime(d.interarrival, d.service, s.customersServed + 1);
    assert e == ArrivalOf(d, n);
    assert a <= t;
    assert ArrivalTime(d.interarrival, n + 1) == a + d.interarrival(n);
    StepsDecrease(t - a, d.interarrival(n), minGap);
    assert t - ArrivalTime(d.interarrival, n + 1) == (t - a) - d.interarrival(n);
  }
}
