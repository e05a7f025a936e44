/** The in-process event bus with bounded, droppable subscribers. */
module Events {
  import opened Prelude
  import opened Model

  const QUEUE_SIZE := 256
  const HISTORY_SIZE := 200

  datatype Event = Event(kind: string, payload: map<string, Json>, at: int) {
    function ToDict(): Json { JObject(map["kind" := JString(kind), "at" := JNumber(at)] + payload) }
  }

  /** One subscriber as a value: its queue (`None` is the sentinel that ends the stream), whether
      the bus still knows it, and whether it was dropped. */
  datatype Mailbox = Mailbox(queue: seq<Option<Event>>, attached: bool, dropped: bool)

  const FRESH := Mailbox([], false, false)

  /** What one published event does to one subscriber. */
  function Offered(m: Mailbox, event: Event): Mailbox {
    if !m.attached then m
    else if |m.queue| < QUEUE_SIZE then m.(queue := m.queue + [Some(event)])
    else Mailbox(m.queue[1..] + [None], false, true)
  }

  /** What closing the bus does to it: a full queue gets no sentinel. */
  function Closed(m: Mailbox): Mailbox {
    if !m.attached then m
    else Mailbox(if |m.queue| < QUEUE_SIZE then m.queue + [None] else m.queue, false, m.dropped)
  }

  function Newest<T>(s: seq<T>, n: nat): seq<T> { if |s| <= n then s else s[|s| - n..] }

  lemma NewestOfMore<T>(s: seq<T>, x: T, n: nat)
    requires n > 0
    ensures Newest(Newest(s, n) + [x], n) == Newest(s + [x], n)
  {
  }

  class Subscription {
    var queue: seq<Option<Event>>
    var dropped: bool

    constructor ()
      ensures queue == [] && !dropped
    {
      queue := [];
      dropped := false;
    }

    method PutNowait(item: Option<Event>) returns (full: bool)
      modifies this`queue
      ensures full == (|old(queue)| >= QUEUE_SIZE)
      ensures queue == if full then old(queue) else old(queue) + [item]
    {
      if |queue| >= QUEUE_SIZE { return true; }
      queue := queue + [item];
      return false;
    }

    method GetNowait() returns (item: Option<Option<Event>>)
      modifies this`queue
      ensures old(queue) == [] ==> item == None && queue == []
      ensures old(queue) != [] ==> item == Some(old(queue)[0]) && queue == old(queue)[1..]
    {
      if queue == [] { return None; }
      item := Some(queue[0]);
      queue := queue[1..];
    }
  }

  lemma OthersStay(before: set<Subscription>, after: set<Subscription>, s: Subscription)
    requires after - {s} == before - {s}
    ensures forall other :: other != s ==> (other in after <==> other in before)
  {
    forall other: Subscription | other != s ensures other in after <==> other in before {
      assert other in after - {s} <==> other in before - {s};
    }
  }

  class Bus {
    var subscribers: set<Subscription>
    var history: seq<Event>
    ghost var log: seq<Event>          // every event ever published

    constructor ()
      ensures Valid() && subscribers == {} && history == [] && log == []
    {
      subscribers := {};
      history := [];
      log := [];
    }

    ghost predicate Valid()
      reads this, subscribers
    {
      history == Newest(log, HISTORY_SIZE) && forall s <- subscribers :: |s.queue| <= QUEUE_SIZE
    }

    ghost function Box(s: Subscription): Mailbox
      reads this, s
    {
      Mailbox(s.queue, s in subscribers, s.dropped)
    }

    method Attach(s: Subscription)
      requires Valid() && |s.queue| <= QUEUE_SIZE
      modifies this`subscribers
      ensures Valid() && subscribers == old(subscribers) + {s}
    {
      subscribers := subscribers + {s};
    }

    method Detach(s: Subscription)
      requires Valid()
      modifies this`subscribers
      ensures Valid() && subscribers == old(subscribers) - {s}
    {
      subscribers := subscribers - {s};
    }

    /** What one subscriber gets. */
    method Offer(s: Subscription, event: Event)
      requires Valid() && s in subscribers
      modifies this`subscribers, s
      ensures Valid() && Box(s) == Offered(old(Box(s)), event)
      ensures subscribers - {s} == old(subscribers) - {s} && subscribers <= old(subscribers)
    {
      var full := s.PutNowait(Some(event));
      if full {
        s.dropped := true;
        Detach(s);
        var _ := s.GetNowait();
        var _ := s.PutNowait(None);
      }
    }

    /** Every subscriber is dealt with by itself: what happens to one depends on its own queue
        only, and nobody else is touched. */
    method Publish(event: Event)
      requires Valid()
      modifies this, subscribers
      ensures Valid() && log == old(log) + [event]
      ensures subscribers <= old(subscribers)
      ensures forall s <- old(subscribers) :: Box(s) == Offered(old(Box(s)), event)
    {
      NewestOfMore(log, event, HISTORY_SIZE);
      history := Newest(history + [event], HISTORY_SIZE);
      log := log + [event];
      var todo := subscribers;
      while todo != {}
        invariant todo <= subscribers <= old(subscribers) && Valid() && log == old(log) + [event]
        invariant forall s <- todo :: s.queue == old(s.queue) && s.dropped == old(s.dropped)
        invariant forall s <- old(subscribers) - todo :: Box(s) == Offered(old(Box(s)), event)
        decreases |todo|
      {
        var s :| s in todo;
        ghost var before := subscribers;
        todo := todo - {s};
        Offer(s, event);
        OthersStay(before, subscribers, s);
      }
    }

    method Close()
      requires Valid()
      modifies this`subscribers, subscribers
      ensures Valid() && subscribers == {}
      ensures forall s <- old(subscribers) :: Box(s) == Closed(old(Box(s)))
    {
      var todo := subscribers;
      while todo != {}
        invariant todo == subscribers && todo <= old(subscribers) && Valid()
        invariant forall s <- todo :: s.queue == old(s.queue) && s.dropped == old(s.dropped)
        invariant forall s <- old(subscribers) - todo :: Box(s) == Closed(old(Box(s)))
        decreases |todo|
      {
        var s :| s in todo;
        Detach(s);
        var _ := s.PutNowait(None);
        todo := todo - {s};
      }
    }
  }
}
