# Single-server queue simulation, modelled in Dafny

This project models the discrete-event simulation kernel of a single-server queue
(`SSQSimulation` in `main.py`). Customers arrive, wait in a first-in-first-out queue,
are served one at a time by a single server, and leave. The simulation keeps these
fields:

- a clock;
- the number of customers in service (0 or 1);
- the customer queue;
- a future event list of pending arrival and departure events;
- counters of arrivals and departures.

It repeatedly takes an earliest event from the future event list, moves the clock to
that event's time and handles it, until `customersToServe` customers have departed.
Each customer's wait and time in the system is printed.

The model has five modules:

- `Events` (`events.dfy`) models the `Customer` and `Event` records and the event
  comparator, which compares times only.
- `FutureEventList` (`future_event_list.dfy`) models the priority queue as a multiset
  of events. `Get` removes *some* event of least time. Which of several simultaneous
  events comes out is deliberately left open.
- `Schedule` (`schedule.dfy`) is an independent reference definition of the queue.
  It states when customer n arrives, starts service and departs, and it proves
  Lindley's recursion for the waits.
- `Transitions` (`transitions.dfy`) models the simulation state as a value and each
  handler as a function of it. Its invariant `Valid` says:
  - the queue, the counters, the pending events and both printed logs are exactly
    what the reference schedule predicts at the current counts;
  - no pending event lies in the past.

  The lemmas prove that `Valid` holds after `start` and is kept by every iteration
  of the run loop. They also prove the counting, ordering and timing properties that
  follow from it.
- `Simulation` (`simulation.dfy`) holds the class `SSQSimulation`. Its fields are
  updated in place by `Start`, `AdvanceTime` (a `while` loop with invariants),
  `HandleArrival`, `HandleDeparture`, `ScheduleArrival` and `ScheduleDeparture`.
  Each handler is proved to have exactly the effect of the corresponding function in
  `Transitions`. The loop is proved to keep `Valid` and to stop after exactly
  `max(customersToServe, 0)` departures.

The random draws are inputs: two streams indexed by customer number.

- `interarrivalTimes(n)` is the gap drawn after customer n arrives.
- `serviceTimes(n)` is the service duration drawn for customer n.

Each draw in the source is independent of the others, so "the next draw" and "the
draw for customer n" describe the same runs. Times are real numbers. The printed
lines become two logs of `Report(customerNumber, time)`: one for the wait times and
one for the times in the system.

Every reachable state agrees with the reference schedule at its own counts, so each
reported wait or system time is the reference value for that customer, whatever the
order in which simultaneous events are taken. Which customers have been reported when
the run stops, and the final `customersArrived` and `numInService`, can still depend on
that order. For example, when customer 1's departure and customer 2's arrival fall at the
same time and `customersToServe` is 1, the run reports customer 2's wait only if the
arrival is taken first.

## Model

| member | source | states |
|---|---|---|
| `Events.Later` | main.py:23-24 | `__gt__`: an event is later than another when its time is strictly greater, whatever the types or customers |
| `Events.SameTime` | main.py:26-27 | `__eq__`: two events are equal for the queue when their times are equal |
| `FutureEventList.IsEarliest` | main.py:69 | an event may be returned by `get` when no pending event is earlier than it by the comparator |
| `FutureEventList.EarliestExists` | main.py:67-69 | a non-empty future event list has an event that no other pending event precedes |
| `FutureEventList.Get` | main.py:69 | `get` removes one occurrence of an event of the list that the comparator places no later than any pending event |
| `FutureEventList.TiesMayComeOutEitherWay` | main.py:26-27 | of two events at the same time, either may be returned first: ties are not ordered |
| `Schedule.ArrivalsInOrder` | main.py:113-116 | with non-negative gaps, a customer with a higher number arrives no earlier |
| `Schedule.DeparturesInOrder` | main.py:125-131 | with non-negative service times, customers depart in the order of their numbers |
| `Schedule.ServiceAfterArrival` | main.py:126-131 | a wait is never negative, the first customer does not wait, and time in the system is wait plus service |
| `Schedule.Lindley` | main.py:123-131 | the next customer's wait is max(0, wait + service - gap) |
| `Transitions.Initial` | main.py:45-56 | the state at time 0: clock 0, nothing scheduled, and customers conserved |
| `Transitions.ScheduledArrival` | main.py:111-119 | `scheduleArrival` grows the event list by one event and changes nothing else: clock, server flag, queue, counters and both logs stay as they were |
| `Transitions.HandlersOnlyAddEvents` | main.py:111-135 | scheduling and handling only add events: every event pending before a step is still pending after it |
| `Transitions.ScheduledDeparture` | main.py:123-135 | `scheduleDeparture` takes one customer off the queue, adds one wait report and one event, makes the server busy and extends the wait log by one report (the old log is a prefix of the new one), and leaves the counters, clock and system-time log alone |
| `Transitions.AfterArrival` | main.py:77-92 | `handleArrival` counts one arrival and no departure, keeps the clock, leaves a server whose flag was 0 or 1 busy, grows an idle server's event list by two events and a busy one's by one, only extends the wait log, leaves the system-time log alone, and conserves customers |
| `Transitions.AfterDeparture` | main.py:94-108 | `handleDeparture` counts one departure, keeps the clock, extends the system-time log by exactly one report and only extends the wait log, keeps the server busy exactly when someone was waiting, and conserves customers |
| `Transitions.Waiting` | main.py:82 | the queue predicted between two counts holds exactly that many customers |
| `Transitions.WaitLog` | main.py:126-128 | after m services have started, m wait times have been reported |
| `Transitions.SystemLog` | main.py:98-99 | after m departures, m system times have been reported |
| `Transitions.WaitingShrinks` | main.py:125 | `pop(0)` on the predicted queue yields its lowest-numbered customer and leaves the rest |
| `Transitions.WaitingAt` | main.py:80-82 | the i-th queued customer is numbered one after the customers ahead of it |
| `Transitions.WaitLogAt` | main.py:126-128 | the i-th wait report is customer i + 1's wait in the reference schedule |
| `Transitions.SystemLogAt` | main.py:98-99 | the i-th system-time report is customer i + 1's time in the system in the reference schedule |
| `Transitions.StartIsValid` | main.py:45-59 | the state at time 0 with the first arrival scheduled at time 0 satisfies the invariant |
| `Transitions.PendingEvents` | main.py:111-135 | exactly one arrival is pending and as many departures as customers in service, so the list is never empty when `get` is called |
| `Transitions.ClockMovesOn` | main.py:71 | moving the clock forward keeps the queue, counters and logs consistent |
| `Transitions.EarliestIsScheduled` | main.py:69 | the event `get` returns precedes neither the next arrival nor the pending departure, and is the one of them its type names |
| `Transitions.TakeEarliest` | main.py:69-71 | taking an earliest event and setting the clock to its time never moves the clock back and leaves the rest of the state consistent |
| `Transitions.ServiceStartsOnArrival` | main.py:85-86 | a customer who finds the server idle starts service on arrival and waits zero |
| `Transitions.ServiceStartsOnDeparture` | main.py:103-104 | when a customer leaves while others wait, the next one starts service at that moment |
| `Transitions.DepartureScheduled` | main.py:123-135 | `scheduleDeparture` moves the head customer into service, reports its wait and schedules its predicted departure |
| `Transitions.ArrivalScheduled` | main.py:111-119 | `scheduleArrival` after customer n arrives schedules customer n + 1's predicted arrival |
| `Transitions.ArrivalToIdleServer` | main.py:77-92 | an arrival to an idle server: served at once, departure and next arrival scheduled, wait reported |
| `Transitions.ArrivalToBusyServer` | main.py:77-92 | an arrival to a busy server joins the tail of the queue and the next arrival is scheduled |
| `Transitions.ValidAfterIdleArrival` | main.py:85-92 | the state after an arrival to an idle server satisfies the invariant |
| `Transitions.ValidAfterBusyArrival` | main.py:82-92 | the state after an arrival to a busy server satisfies the invariant |
| `Transitions.IdleArrivalPreservesValid` | main.py:77-92 | handling an arrival with the server idle keeps the invariant, counts the arrival and makes the server busy |
| `Transitions.BusyArrivalPreservesValid` | main.py:77-92 | handling an arrival with the server busy keeps the invariant and counts the arrival |
| `Transitions.ArrivalPreservesValid` | main.py:77-92 | `handleArrival` keeps the invariant, counts one arrival, leaves the departures and the clock unchanged and leaves the server busy |
| `Transitions.DepartureToWaitingCustomer` | main.py:94-108 | a departure while customers wait reports the system time and starts the next service |
| `Transitions.DepartureToEmptyQueue` | main.py:94-108 | a departure with nobody waiting reports the system time and idles the server |
| `Transitions.ValidAfterDepartureToWaiting` | main.py:103-108 | the state after a departure that starts the next service satisfies the invariant |
| `Transitions.ValidAfterDepartureToEmpty` | main.py:105-108 | the state after a departure that idles the server satisfies the invariant |
| `Transitions.DepartureToWaitingPreservesValid` | main.py:94-108 | handling a departure with customers waiting keeps the invariant and counts one departure |
| `Transitions.DepartureToEmptyPreservesValid` | main.py:94-108 | handling a departure with nobody waiting keeps the invariant and counts one departure |
| `Transitions.DeparturePreservesValid` | main.py:94-108 | `handleDeparture` keeps the invariant, counts exactly one departure and leaves the arrivals and the clock unchanged |
| `Transitions.LoopStep` | main.py:65-75 | one loop iteration keeps the invariant, never moves the clock back, and either counts a departure, makes an idle server busy, or brings the pending departure closer |
| `Transitions.ArrivalProgress` | main.py:69-73 | an arrival handled while the server is busy lowers the number of arrivals that can precede the pending departure |
| `Transitions.ArrivalMakesProgress` | main.py:72-92 | the same, stated on the state after the clock has moved |
| `Transitions.Conservation` | main.py:47-54 | in every valid state customers are conserved: queue length is arrivals minus departures minus customers in service; the server flag is 0 or 1; an idle server means an empty queue |
| `Transitions.QueueInArrivalOrder` | main.py:80-82 | the queue holds consecutively numbered customers in order of arrival |
| `Transitions.ReportsInOrder` | main.py:98-128 | the wait and system-time reports are numbered 1, 2, 3, ... (FIFO service); no wait is negative and no system time is shorter than the service |
| `Transitions.StepsDecrease` | main.py:65 | a step of at least the minimum gap lowers the number of steps left (the termination measure) |
| `Simulation.SSQSimulation.constructor` | main.py:32-38 | the draws and the stopping criterion are stored; the state is the one at time 0 |
| `Simulation.SSQSimulation.Start` | main.py:42-61 | resets the state, schedules the first arrival and runs; ends in a valid state with exactly max(customersToServe, 0) departures, with the clock at customer customersToServe's departure time in the reference schedule (at 0 when there is nobody to serve) |
| `Simulation.SSQSimulation.AdvanceTime` | main.py:64-75 | loops until customersToServe departures, keeping the invariant; the clock never goes back, and when the loop runs at all it stops with the clock at customer customersToServe's reference departure time |
| `Simulation.SSQSimulation.NextEvent` | main.py:69-75 | one iteration: `get`, move the clock, dispatch on the event type; keeps the invariant and makes progress; when it handles a departure, the clock stands at that customer's reference departure time |
| `Simulation.SSQSimulation.HandleArrival` | main.py:77-92 | the new state is the arrival handler applied to the old one |
| `Simulation.SSQSimulation.HandleDeparture` | main.py:94-108 | the new state is the departure handler applied to the old one |
| `Simulation.SSQSimulation.ScheduleArrival` | main.py:111-119 | adds the arrival event at time 0 for the first customer, otherwise at clock + gap; nothing else changes |
| `Simulation.SSQSimulation.ScheduleDeparture` | main.py:123-135 | pops the head of the queue, reports its wait, adds its departure at clock + service and marks the server busy |

## Left out

- The random generators (main.py:138-145) are not modelled. Normal draws from numpy become the two input streams of durations.
- `main()` and its parameter literals (main.py:147-160) are not modelled. Neither is the unused `Teller` class (main.py:11-13).
- `print` (main.py:99, 128) is modelled as appending to two logs. The interleaving of the two kinds of lines on standard output is not kept.
- `totalWaitTime` and `maxWaitTime` (main.py:55-56) are set to 0 and never used, so they are not fields of the model.
- The mean and standard deviation parameters of the constructor (main.py:34-37) are replaced by the streams they would generate.
- `queue.PriorityQueue` locking and blocking are not modelled. A `get` on an empty list would block forever; the model's `Get` instead requires a non-empty list, and the invariant proves the loop always has one.
- Event types are an enumeration. The source compares the string `"arrival"` and treats anything else as a departure, and only those two strings occur.
- Customers are values, not shared mutable objects. In the source the customer object that `handleArrival` numbers and `scheduleDeparture` stamps with a departure time is only reachable through the queue or one pending event. Updating a copy is therefore the same as updating it in place.
- Simulation.SSQSimulation.Start: requires every drawn duration to be non-negative. The source does not guard against negative normal draws. With a negative draw an event can be scheduled before the current clock, and the clock-monotonicity, wait and ordering properties do not hold; the model does not describe those runs.
- Simulation.SSQSimulation.Start: also takes a ghost lower bound `minGap > 0` on every interarrival gap. It is used only to prove termination. With gaps that are zero, or that shrink towards zero, the source's loop can handle arrivals forever before the pending departure, and that is not modelled.
- Simulation.SSQSimulation.AdvanceTime: requires the same ghost `minGap` bound and a valid state, as it is only called from `start`.
- Simulation.SSQSimulation.HandleArrival and Simulation.SSQSimulation.HandleDeparture: state their effect as a function of the old state. Keeping the invariant is proved for them only in the context of the run loop (`Transitions.LoopStep`), where the handled event is an earliest one.
- Which of several simultaneous events `get` returns is left open rather than following `heapq`'s order, so every property is proved for every tie order.
- Simulation.SSQSimulation.constructor: `__init__` (main.py:32-38) sets no clock, queue or counters; the constructor gives them the time-0 values that `start` (main.py:45-56) sets, because Dafny requires every field to be initialised, and nothing before `start` reads them.
