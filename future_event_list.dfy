/** The future event list: a bag of pending events from which the earliest is taken.
    Events at equal times come out in no specified order. */
module FutureEventList {
  import opened Events

  /** e is not later than any pending event, i.e. it may be returned by `get`. */
  predicate IsEarliest(e: Event, fel: multiset<Event>)
  {
    forall x | x in fel :: !Later(e, x)
  }

  /** A non-empty future event list has an earliest event. */
  lemma {:induction false} EarliestExists(fel: multiset<Event>)
    requires |fel| > 0
    ensures exists e :: e in fel && IsEarliest(e, fel)
    decreases |fel|
  {
    var y :| y in fel;
    var rest := fel - multiset{y};
    if |rest| == 0 {
      assert fel == multiset{y};
      assert IsEarliest(y, fel);
    } else {
      EarliestExists(rest);
      var e :| e in rest && IsEarliest(e, rest);
      assert forall x | x in fel :: x == y || x in rest;
      if Later(e, y) {
        assert IsEarliest(y, fel);
      } else {
        assert IsEarliest(e, fel);
      }
    }
  }

  /** `futureEventList.get()`: removes and returns an earliest event. Which of several
      events with the earliest time is returned is left open, as a binary heap that
      compares times only does not fix it. */
  method Get(fel: multiset<Event>) returns (next: Event, rest: multiset<Event>)
    requires |fel| > 0
    ensures next in fel && rest == fel - multiset{next}
    ensures IsEarliest(next, fel)
  {
    EarliestExists(fel);
    next :| next in fel && IsEarliest(next, fel);
    rest := fel - multiset{next};
  }

  /** Any of several events with equal earliest time may be returned: the model
      does not order ties by insertion. */
  lemma TiesMayComeOutEitherWay(a: Event, b: Event)
    requires SameTime(a, b)
    ensures IsEarliest(a, multiset{a, b}) && IsEarliest(b, multiset{a, b})
  {
  }
}
