/** Reference definition of the single-server FIFO queue: when each customer arrives,
    starts service and departs, given the interarrival and service durations.
    Customers are numbered 1, 2, 3, ...; gap(n) is the time between the arrivals of
    customers n and n + 1, service(n) is the service duration of customer n. */
module Schedule {

  function Max(a: real, b: real): real
  {
    if a >= b then a else b
  }

  ghost predicate NonNegative(f: int -> real)
  {
    forall k :: f(k) >= 0.0
  }

  /** The first customer arrives at time 0; each later one gap(n) after customer n. */
  function ArrivalTime(gap: int -> real, n: nat): real
    requires n >= 1
  {
    if n == 1 then 0.0 else ArrivalTime(gap, n - 1) + gap(n - 1)
  }

  /** Customer n starts service when it has arrived and customer n - 1 has left. */
  function ServiceStart(gap: int -> real, service: int -> real, n: nat): real
    requires n >= 1
    decreases n, 0
  {
    if n == 1 then ArrivalTime(gap, 1)
    else Max(ArrivalTime(gap, n), DepartureTime(gap, service, n - 1))
  }

  function DepartureTime(gap: int -> real, service: int -> real, n: nat): real
    requires n >= 1
    decreases n, 1
  {
    ServiceStart(gap, service, n) + service(n)
  }

  /** Time customer n spends in the queue before its service starts. */
  function WaitTime(gap: int -> real, service: int -> real, n: nat): real
    requires n >= 1
  {
    ServiceStart(gap, service, n) - ArrivalTime(gap, n)
  }

  /** Time customer n spends in the system, from arrival to departure. */
  function SystemTime(gap: int -> real, service: int -> real, n: nat): real
    requires n >= 1
  {
    DepartureTime(gap, service, n) - ArrivalTime(gap, n)
  }

  /** With non-negative gaps, customers arrive in the order of their numbers. */
  lemma {:induction false} ArrivalsInOrder(gap: int -> real, m: nat, n: nat)
    requires NonNegative(gap) && 1 <= m <= n
    ensures ArrivalTime(gap, m) <= ArrivalTime(gap, n)
    decreases n
  {
    if m < n {
      ArrivalsInOrder(gap, m, n - 1);
      assert gap(n - 1) >= 0.0;
    }
  }

  /** With non-negative service durations, customers also depart in the order of
      their numbers: the queue is first in, first out. */
  lemma {:induction false} DeparturesInOrder(gap: int -> real, service: int -> real, m: nat, n: nat)
    requires NonNegative(service) && 1 <= m <= n
    ensures DepartureTime(gap, service, m) <= DepartureTime(gap, service, n)
    decreases n
  {
    if m < n {
      DeparturesInOrder(gap, service, m, n - 1);
      assert service(n) >= 0.0;
    }
  }

  /** No customer starts service before it arrives, and its time in the system is its
      wait plus its service. */
  lemma ServiceAfterArrival(gap: int -> real, service: int -> real, n: nat)
    requires n >= 1
    ensures WaitTime(gap, service, n) >= 0.0
    ensures SystemTime(gap, service, n) == WaitTime(gap, service, n) + service(n)
    ensures n == 1 ==> WaitTime(gap, service, n) == 0.0
  {
  }

  /** Lindley's recursion: the wait of the next customer is the current wait plus the
      current service minus the gap between the two arrivals, or zero if that is negative. */
  lemma Lindley(gap: int -> real, service: int -> real, n: nat)
    requires n >= 1
    ensures WaitTime(gap, service, n + 1) == Max(0.0, WaitTime(gap, service, n) + service(n) - gap(n))
  {
    var a := ArrivalTime(gap, n + 1);
    assert a == ArrivalTime(gap, n) + gap(n);
    assert ServiceStart(gap, service, n + 1) == Max(a, DepartureTime(gap, service, n));
  }
}
