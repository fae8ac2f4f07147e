/** The simulation object: its fields are the simulation clock, the system state, the
    customer queue, the future event list and the counters, and its methods update them
    in place. Each method is proved to have the effect of the corresponding handler in
    module Transitions, and the run loop to keep the state valid and to stop after
    exactly the requested number of departures. */
module Simulation {
  import opened Events
  import opened FutureEventList
  import opened Schedule
  import opened Transitions

  class SSQSimulation {
    /** The random durations, as streams indexed by customer number. */
    const interarrivalTimes: int -> real
    const serviceTimes: int -> real
    /** Stopping criterion: the number of departures after which the run ends. */
    const customersToServe: int

    var clock: real
    var numInService: nat
    var customerQueue: seq<Customer>
    var futureEventList: multiset<Event>
    var customersArrived: nat
    var customersServed: nat
    /** The lines the run prints, in the order it prints each kind. */
    var waitTimeLog: seq<Report>
    var systemTimeLog: seq<Report>

    function Draws(): Samples
    {
      Samples(interarrivalTimes, serviceTimes)
    }

    ghost function State(): SimState
      reads this
    {
      SimState(clock, numInService, customerQueue, futureEventList,
               customersArrived, customersServed, waitTimeLog, systemTimeLog)
    }

    constructor(interarrivalTimes: int -> real, serviceTimes: int -> real, customersToServe: int)
      ensures this.interarrivalTimes == interarrivalTimes && this.serviceTimes == serviceTimes
      ensures this.customersToServe == customersToServe
      ensures State() == Initial()
    {
      this.interarrivalTimes := interarrivalTimes;
      this.serviceTimes := serviceTimes;
      this.customersToServe := customersToServe;
      clock := 0.0;
      numInService := 0;
      customerQueue := [];
      futureEventList := multiset{};
      customersArrived := 0;
      customersServed := 0;
      waitTimeLog := [];
      systemTimeLog := [];
    }

    /** start: reset the system to time 0, schedule the first arrival and run. With
        durations that are never negative and gaps bounded away from zero, the run stops
        after exactly max(customersToServe, 0) departures, and the wait and system times
        it reports are those of the reference schedule, customer by customer. */
    method Start(ghost minGap: real)
      requires minGap > 0.0 && forall k :: interarrivalTimes(k) >= minGap
      requires NonNegative(serviceTimes)
      modifies this
      ensures Valid(Draws(), State())
      ensures customersServed == if customersToServe > 0 then customersToServe else 0
      ensures customersToServe >= 1 ==> clock == DepartureTime(interarrivalTimes, serviceTimes, customersToServe)
      ensures customersToServe <= 0 ==> clock == 0.0
    {
      clock := 0.0;
      numInService := 0;
      customerQueue := [];
      futureEventList := multiset{};
      customersArrived := 0;
      customersServed := 0;
      waitTimeLog := [];
      systemTimeLog := [];
      assert State() == Initial();
      ScheduleArrival();
      StartIsValid(Draws());
      AdvanceTime(minGap);
    }

    /** advanceTime: while fewer than customersToServe customers have departed, take
        an earliest pending event, move the clock to it and handle it. */
    method AdvanceTime(ghost minGap: real)
      requires Valid(Draws(), State())
      requires minGap > 0.0 && forall k :: interarrivalTimes(k) >= minGap
      modifies this
      ensures Valid(Draws(), State())
      ensures customersServed == if old(customersServed) < customersToServe then customersToServe else old(customersServed)
      ensures old(clock) <= clock
      ensures old(customersServed) < customersToServe ==>
        clock == DepartureTime(interarrivalTimes, serviceTimes, customersToServe)
      ensures old(customersServed) >= customersToServe ==> clock == old(clock)
    {
      while customersServed < customersToServe
        invariant Valid(Draws(), State())
        invariant old(customersServed) <= customersServed
        invariant customersServed <= if old(customersServed) < customersToServe then customersToServe else old(customersServed)
        invariant old(clock) <= clock
        invariant old(customersServed) < customersServed == customersToServe ==>
          clock == DepartureTime(interarrivalTimes, serviceTimes, customersServed)
        invariant old(customersServed) >= customersToServe ==> clock == old(clock)
        decreases customersToServe - customersServed, 1 - numInService, ArrivalsBeforeDeparture(Draws(), State(), minGap)
      {
        NextEvent(minGap);
      }
    }

    /** One iteration of advanceTime: take an earliest pending event, move the clock to
        it and handle it. The state stays valid, the clock does not go back, and the
        run makes progress: a customer departs, or an idle server starts serving, or
        fewer arrivals can come before the pending departure. */
    method NextEvent(ghost minGap: real)
      requires Valid(Draws(), State())
      requires minGap > 0.0 && forall k :: interarrivalTimes(k) >= minGap
      modifies this
      ensures Valid(Draws(), State())
      ensures old(clock) <= clock
      ensures customersServed == old(customersServed) + 1 ==>
        clock == DepartureTime(interarrivalTimes, serviceTimes, customersServed)
      ensures || customersServed == old(customersServed) + 1
              || (customersServed == old(customersServed) && old(numInService) == 0 && numInService == 1)
              || (customersServed == old(customersServed) && old(numInService) == 1 && numInService == 1
                  && ArrivalsBeforeDeparture(Draws(), State(), minGap) < ArrivalsBeforeDeparture(Draws(), old(State()), minGap))
    {
      PendingEvents(Draws(), State());
      ghost var s := State();
      var nextEvent, rest := Get(futureEventList);
      futureEventList := rest;
      clock := nextEvent.eventTime;
      ghost var p := State();
      if nextEvent.eventType == Arrival {
        HandleArrival(nextEvent);
      } else {
        HandleDeparture(nextEvent);
      }
      LoopStep(Draws(), s, nextEvent, p, State(), minGap);
    }

    /** handleArrival: the arriving customer gets the next number and joins the queue;
        an idle server starts serving it; the next arrival is scheduled. */
    method HandleArrival(event: Event)
      modifies this
      ensures State() == AfterArrival(Draws(), old(State()), event)
    {
      ghost var s := State();
      var customer := event.customer.(customerNumber := customersArrived + 1);
      customerQueue := customerQueue + [customer];
      ghost var s1 := State();
      assert s1 == s.(customerQueue := s.customerQueue + [customer]);
      if numInService == 0 {
        ScheduleDeparture();
        assert State() == ScheduledDeparture(Draws(), s1);
      } else {
        assert State() == s1;
      }
      ghost var s2 := State();
      customersArrived := customersArrived + 1;
      ghost var s3 := State();
      ScheduleArrival();
      HandledArrival(Draws(), s, event, s1, s2, s3, State());
    }

    /** handleDeparture: report the customer's time in the system, then serve the next
        waiting customer or idle the server, and count the departure. */
    method HandleDeparture(event: Event)
      requires event.customer.departureTime.Some?
      modifies this
      ensures State() == AfterDeparture(Draws(), old(State()), event)
    {
      ghost var s := State();
      var customer := event.customer;
      var systemTime := customer.departureTime.value - customer.arrivalTime;
      systemTimeLog := systemTimeLog + [Report(customer.customerNumber, systemTime)];
      ghost var s1 := State();
      assert s1 == s.(systemTimeLog := s.systemTimeLog + [Report(customer.customerNumber, systemTime)]);
      if |customerQueue| > 0 {
        ScheduleDeparture();
        assert State() == ScheduledDeparture(Draws(), s1);
      } else {
        numInService := 0;
        assert State() == s1.(numInService := 0);
      }
      ghost var s2 := State();
      customersServed := customersServed + 1;
      HandledDeparture(Draws(), s, event, s1, s2, State());
    }

    /** scheduleArrival: the first customer arrives at time 0, each later one an
        interarrival time after now; its arrival event goes into the future event list. */
    method ScheduleArrival()
      modifies this`futureEventList
      ensures State() == ScheduledArrival(Draws(), old(State()))
    {
      var arrivalTime;
      if customersArrived == 0 {
        arrivalTime := 0.0;
      } else {
        arrivalTime := clock + interarrivalTimes(customersArrived);
      }
      futureEventList := futureEventList + multiset{ArrivalAt(arrivalTime)};
    }

    /** scheduleDeparture: the head of the queue leaves it and enters service; its wait
        is reported and its departure scheduled one service time from now. */
    method ScheduleDeparture()
      requires |customerQueue| > 0
      modifies this`customerQueue, this`waitTimeLog, this`futureEventList, this`numInService
      ensures State() == ScheduledDeparture(Draws(), old(State()))
    {
      var customer := customerQueue[0];
      customerQueue := customerQueue[1..];
      var waitTime := clock - customer.arrivalTime;
      waitTimeLog := waitTimeLog + [Report(customer.customerNumber, waitTime)];
      var departureTime := clock + serviceTimes(customer.customerNumber);
      customer := customer.(departureTime := Some(departureTime));
      futureEventList := futureEventList + multiset{Event(Departure, departureTime, customer)};
      numInService := 1;
    }
  }
}
