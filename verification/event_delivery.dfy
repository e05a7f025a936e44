/** What one connected stream is given, over every interleaving of publishing, reading, closing
    the bus and hanging up. */
module EventDelivery {
  import opened Prelude
  import opened Events

  /** How a stream stopped being fed. The numbers count events published since it attached: how
      many there were, and how many of those it had already taken. */
  datatype Cut =
    | Uncut
    | Overflowed(at: nat, taken: nat)
    | Shut(at: nat, taken: nat)
    | Left(at: nat, taken: nat)

  datatype Session =
    | NotYet
    | Streaming(start: nat, box: Mailbox, sent: seq<Event>, ended: bool, cut: Cut)

  /** `log` is every event published so far. */
  datatype Feed = Feed(log: seq<Event>, session: Session)

  datatype Op =
    | Publish(event: Event)
    | Attach                 // and replay the history, before anything else can happen
    | Take                   // the connection takes one item and writes it
    | CloseBus
    | Leave                  // the connection breaks or is cancelled

  const IDLE := Feed([], NotYet)

  function Replay(log: seq<Event>, start: nat): seq<Event>
    requires start <= |log|
  {
    Newest(log[..start], HISTORY_SIZE)
  }

  /** The events of its own that a streaming session has taken. */
  function Taken(f: Feed): int
    requires f.session.Streaming? && f.session.start <= |f.log|
  {
    |f.session.sent| - |Replay(f.log, f.session.start)|
  }

  function Cutting(f: Feed, taken: int, overflow: bool): Cut
    requires f.session.Streaming? && f.session.start <= |f.log|
  {
    var at := |f.log| - f.session.start;
    if taken < 0 then f.session.cut
    else if overflow then Overflowed(at, taken) else Shut(at, taken)
  }

  function Published(f: Feed, e: Event): Feed {
    var log := f.log + [e];
    if f.session.Streaming? && f.session.start <= |f.log| then
      var box := Offered(f.session.box, e);
      var cut := if box.dropped && !f.session.box.dropped then Cutting(f, Taken(f), true) else f.session.cut;
      Feed(log, f.session.(box := box, cut := cut))
    else f.(log := log)
  }

  function Took(f: Feed): Feed {
    if f.session.Streaming? && !f.session.ended && f.session.box.queue != [] then
      var box := f.session.box.(queue := f.session.box.queue[1..]);
      match f.session.box.queue[0]
      case Some(e) => f.(session := f.session.(box := box, sent := f.session.sent + [e]))
      case None => f.(session := f.session.(box := box.(attached := false), ended := true))
    else f
  }

  function BusClosed(f: Feed): Feed {
    if f.session.Streaming? && f.session.start <= |f.log| && f.session.box.attached then
      f.(session := f.session.(box := Closed(f.session.box), cut := Cutting(f, Taken(f), false)))
    else f
  }

  function LeftNow(f: Feed): Feed {
    if f.session.Streaming? && f.session.start <= |f.log| && !f.session.ended && Taken(f) >= 0 then
      f.(session := f.session.(box := f.session.box.(attached := false), ended := true,
                               cut := if f.session.cut.Uncut? then Left(|f.log| - f.session.start, Taken(f))
                                      else f.session.cut))
    else f
  }

  function Next(f: Feed, op: Op): Feed {
    match op
    case Publish(e) => Published(f, e)
    case Attach =>
      if f.session.NotYet? then
        f.(session := Streaming(|f.log|, FRESH.(attached := true), Newest(f.log, HISTORY_SIZE), false, Uncut))
      else f
    case Take => Took(f)
    case CloseBus => BusClosed(f)
    case Leave => LeftNow(f)
  }

  function Run(f: Feed, ops: seq<Op>): Feed {
    if ops == [] then f else Next(Run(f, ops[..|ops| - 1]), ops[|ops| - 1])
  }

  // ---- what is due ----

  /** Everything a session is ever to be sent: the last events before it attached, then all that
      were published since, in order. An overflow costs the oldest event still queued, and ends
      the stream after the others; closing the bus ends it where it is. */
  function Due(f: Feed): seq<Event>
    requires f.session.Streaming? && f.session.start <= |f.log|
  {
    var replay := Replay(f.log, f.session.start);
    var since := f.log[f.session.start..];
    match f.session.cut
    case Uncut => replay + since
    case Overflowed(at, taken) =>
      if taken < at <= |since| then replay + since[..taken] + since[taken + 1..at] else []
    case Shut(at, taken) => if at <= |since| then replay + since[..at] else []
    case Left(at, taken) => if at <= |since| then replay + since[..at] else []
  }

  /** The queue holds these events in this order, and then the sentinel or nothing. */
  predicate Carries(queue: seq<Option<Event>>, items: seq<Event>, sentinel: bool) {
    && |queue| == |items| + (if sentinel then 1 else 0)
    && (forall i :: 0 <= i < |items| ==> queue[i] == Some(items[i]))
    && (sentinel ==> queue[|items|] == None)
  }

  /** Whether the stream will come to an end by itself. */
  predicate Ends(cut: Cut) { cut.Overflowed? || (cut.Shut? && cut.at - cut.taken < QUEUE_SIZE) }

  ghost predicate Fed(f: Feed)
    requires f.session.Streaming? && f.session.start <= |f.log|
  {
    var s := f.session;
    && s.sent <= Due(f) && Taken(f) >= 0
    && (s.cut.Uncut? <==> s.box.attached)
    && (s.box.dropped <==> s.cut.Overflowed?)
    && (s.cut.Uncut? ==> !s.ended && |s.box.queue| <= QUEUE_SIZE)
    && (s.cut.Overflowed? ==> s.cut.at - s.cut.taken == QUEUE_SIZE && s.start + s.cut.at < |f.log|)
    && (s.cut.Shut? || s.cut.Left? ==> s.cut.taken <= s.cut.at && s.start + s.cut.at <= |f.log|)
    && (s.cut.Left? ==> s.ended)
    && (!s.ended ==> Carries(s.box.queue, Due(f)[|s.sent|..], Ends(s.cut)))
  }

  ghost predicate Good(f: Feed) {
    f.session.Streaming? ==> f.session.start <= |f.log| && Fed(f)
  }

  // ---- every operation keeps it ----

  /** What is due does not change for a stream that is no longer fed. */
  lemma DueOfCut(f: Feed, f': Feed, e: Event)
    requires Good(f) && f.session.Streaming? && !f.session.cut.Uncut?
    requires f'.log == f.log + [e] && f'.session == f.session
    ensures Due(f') == Due(f) && Replay(f'.log, f'.session.start) == Replay(f.log, f.session.start)
  {
    var start, at := f.session.start, f.session.cut.at;
    assert f'.log[..start] == f.log[..start];
    assert f'.log[start..][..at] == f.log[start..][..at];
    if f.session.cut.Overflowed? {
      var taken := f.session.cut.taken;
      assert f'.log[start..][..taken] == f.log[start..][..taken];
      assert f'.log[start..][taken + 1..at] == f.log[start..][taken + 1..at];
    }
  }

  lemma PublishAccepted(f: Feed, e: Event)
    requires Good(f) && f.session.Streaming? && f.session.cut.Uncut? && |f.session.box.queue| < QUEUE_SIZE
    ensures Good(Published(f, e)) && Due(Published(f, e)) == Due(f) + [e]
  {
    var f' := Published(f, e);
    assert f'.log[..f.session.start] == f.log[..f.session.start];
    assert f'.log[f.session.start..] == f.log[f.session.start..] + [e];
    assert Due(f') == Due(f) + [e];
    assert Due(f')[|f.session.sent|..] == Due(f)[|f.session.sent|..] + [e];
  }

  lemma PublishOverflows(f: Feed, e: Event)
    requires Good(f) && f.session.Streaming? && f.session.cut.Uncut? && |f.session.box.queue| == QUEUE_SIZE
    ensures Good(Published(f, e))
  {
    var f' := Published(f, e);
    var start, n, k := f.session.start, |f.session.sent|, Taken(f);
    var since := f.log[start..];
    assert f'.log[..start] == f.log[..start];
    assert f'.log[start..][..k] == since[..k];
    assert f'.log[start..][k + 1..|since|] == since[k + 1..];
    assert |Due(f)[n..]| == QUEUE_SIZE && |since| - k == QUEUE_SIZE;
    assert f'.session.cut == Overflowed(|since|, k);
    assert Due(f') == Due(f)[..n] + Due(f)[n + 1..];
    assert Due(f')[n..] == Due(f)[n..][1..];
  }

  lemma PublishKeeps(f: Feed, e: Event)
    requires Good(f)
    ensures Good(Published(f, e))
  {
    if f.session.Streaming? {
      if !f.session.cut.Uncut? {
        assert Published(f, e).session == f.session;
        DueOfCut(f, Published(f, e), e);
      } else if |f.session.box.queue| < QUEUE_SIZE {
        PublishAccepted(f, e);
      } else {
        PublishOverflows(f, e);
      }
    }
  }

  lemma TakeKeeps(f: Feed)
    requires Good(f)
    ensures Good(Took(f))
  {
    var f' := Took(f);
    if f' != f {
      var due, n := Due(f), |f.session.sent|;
      assert Due(f') == due;
      if f.session.box.queue[0].Some? {
        assert f'.session.sent == due[..n + 1];
        assert due[n..][1..] == due[n + 1..];
      }
    }
  }

  lemma CloseKeeps(f: Feed)
    requires Good(f)
    ensures Good(BusClosed(f))
  {
    var f' := BusClosed(f);
    if f' != f {
      var since := f.log[f.session.start..];
      assert since[..|since|] == since;
      assert Due(f') == Due(f);
    }
  }

  lemma LeaveKeeps(f: Feed)
    requires Good(f)
    ensures Good(LeftNow(f))
  {
    var f' := LeftNow(f);
    if f' != f && f.session.cut.Uncut? {
      var since := f.log[f.session.start..];
      assert since[..|since|] == since;
      assert Due(f') == Due(f);
    }
  }

  lemma AttachKeeps(f: Feed)
    requires Good(f)
    ensures Good(Next(f, Attach))
  {
    if f.session.NotYet? {
      var f' := Next(f, Attach);
      WholePrefix(f.log);
      assert f.log[|f.log|..] == [];
      assert Due(f') == f'.session.sent;
    }
  }

  lemma {:induction false} RunKeeps(ops: seq<Op>)
    ensures Good(Run(IDLE, ops))
  {
    if ops != [] {
      RunKeeps(ops[..|ops| - 1]);
      var f := Run(IDLE, ops[..|ops| - 1]);
      match ops[|ops| - 1]
      case Publish(e) => PublishKeeps(f, e);
      case Attach => AttachKeeps(f);
      case Take => TakeKeeps(f);
      case CloseBus => CloseKeeps(f);
      case Leave => LeaveKeeps(f);
    }
  }

  // ---- the statements ----

  /** At every moment the stream has been sent a prefix of what is due: at most 200 events from
      before it attached, then every later one in order; short of exactly the oldest queued
      event when 256 were waiting and one more was published. */
  lemma SentIsDue(ops: seq<Op>)
    requires Run(IDLE, ops).session.Streaming?
    ensures var f := Run(IDLE, ops);
            && f.session.start <= |f.log|
            && f.session.sent <= Due(f)
            && Replay(f.log, f.session.start)
               == f.log[if f.session.start <= 200 then 0 else f.session.start - 200..f.session.start]
            && Replay(f.log, f.session.start) <= f.session.sent
            && (f.session.cut.Overflowed? ==>
                  var since, at, taken := f.log[f.session.start..], f.session.cut.at, f.session.cut.taken;
                  at - taken == 256 && at < |since|
                  && Due(f) == Replay(f.log, f.session.start) + since[..taken] + since[taken + 1..at])
            && (f.session.cut.Shut? || f.session.cut.Left? ==>
                  f.session.cut.at <= |f.log| - f.session.start
                  && Due(f) == Replay(f.log, f.session.start) + f.log[f.session.start..][..f.session.cut.at])
            && (f.session.cut.Uncut? ==> Due(f) == Replay(f.log, f.session.start) + f.log[f.session.start..]
                                         && |Due(f)| - |f.session.sent| <= 256)
  {
    RunKeeps(ops);
    var f := Run(IDLE, ops);
    var replay := Replay(f.log, f.session.start);
    assert replay <= Due(f);
    assert f.session.sent[..|replay|] == Due(f)[..|replay|] == replay;
  }

  function Takes(n: nat): seq<Op> { seq(n, i => Take) }

  lemma {:induction false} TakesDrain(f: Feed, n: nat)
    requires Good(f) && f.session.Streaming? && !f.session.ended && n <= |f.session.box.queue|
    requires Ends(f.session.cut) ==> n < |f.session.box.queue|
    ensures var f' := Run(f, Takes(n));
            f' == f.(session := f.session.(box := f.session.box.(queue := f.session.box.queue[n..]),
                                           sent := Due(f)[..|f.session.sent| + n]))
  {
    if n == 0 {
      assert f.session.box.queue[0..] == f.session.box.queue;
      assert Due(f)[..|f.session.sent|] == f.session.sent;
    } else {
      TakesDrain(f, n - 1);
      assert Takes(n)[..n - 1] == Takes(n - 1);
      ItemAt(f, n - 1);
      var due, k, queue := Due(f), |f.session.sent|, f.session.box.queue;
      var before := Run(f, Takes(n - 1));
      assert before.session.box.queue == queue[n - 1..];
      TakeOne(before, due[k + n - 1]);
    }
  }

  lemma ItemAt(f: Feed, i: nat)
    requires Good(f) && f.session.Streaming? && !f.session.ended && i < |f.session.box.queue|
    requires Ends(f.session.cut) ==> i + 1 < |f.session.box.queue|
    ensures var due, k, queue := Due(f), |f.session.sent|, f.session.box.queue;
            && k + i < |due| && queue[i..][0] == Some(due[k + i]) && queue[i..][1..] == queue[i + 1..]
            && due[..k + i] + [due[k + i]] == due[..k + i + 1]
  {
    assert Due(f)[|f.session.sent|..][i] == Due(f)[|f.session.sent| + i];
  }

  lemma TakeOne(f: Feed, e: Event)
    requires f.session.Streaming? && !f.session.ended && f.session.box.queue != [] && f.session.box.queue[0] == Some(e)
    ensures Next(f, Take) == f.(session := f.session.(box := f.session.box.(queue := f.session.box.queue[1..]),
                                                      sent := f.session.sent + [e]))
  {
  }

  /** A reader that keeps reading is sent all that is due, and its stream then ends exactly if it
      overflowed, or the bus was closed while its queue had room for the sentinel. */
  lemma EverythingArrives(ops: seq<Op>)
    requires var f := Run(IDLE, ops); f.session.Streaming? && !f.session.ended
    ensures var f := Run(IDLE, ops);
            var f' := Run(f, Takes(|f.session.box.queue|));
            && f.session.start <= |f.log|
            && f'.session.Streaming? && f'.session.sent == Due(f) && f'.session.box.queue == []
            && (f'.session.ended <==>
                  f.session.cut.Overflowed? || (f.session.cut.Shut? && f.session.cut.at - f.session.cut.taken < 256))
  {
    RunKeeps(ops);
    var f := Run(IDLE, ops);
    if Ends(f.session.cut) {
      EndingDrains(f);
    } else {
      OpenDrains(f);
    }
  }

  lemma OpenDrains(f: Feed)
    requires Good(f) && f.session.Streaming? && !f.session.ended && !Ends(f.session.cut)
    ensures var f' := Run(f, Takes(|f.session.box.queue|));
            f'.session.Streaming? && f'.session.sent == Due(f) && f'.session.box.queue == [] && !f'.session.ended
  {
    TakesDrain(f, |f.session.box.queue|);
    WholePrefix(Due(f));
  }

  lemma EndingDrains(f: Feed)
    requires Good(f) && f.session.Streaming? && !f.session.ended && Ends(f.session.cut)
    ensures var f' := Run(f, Takes(|f.session.box.queue|));
            f'.session.Streaming? && f'.session.sent == Due(f) && f'.session.box.queue == [] && f'.session.ended
  {
    var n := |f.session.box.queue|;
    TakesDrain(f, n - 1);
    assert Takes(n)[..n - 1] == Takes(n - 1);
    WholePrefix(Due(f));
  }

  /** Closing the bus on a full queue leaves the reader waiting for ever: it is sent everything,
      and no sentinel follows. */
  lemma ClosedWhileFullNeverEnds(ops: seq<Op>)
    requires var f := Run(IDLE, ops); f.session.Streaming? && f.session.cut.Uncut? && |f.session.box.queue| == QUEUE_SIZE
    ensures var closed := Run(IDLE, ops + [CloseBus]);
            var f' := Run(closed, Takes(QUEUE_SIZE));
            f'.session.Streaming? && !f'.session.ended && f'.session.box.queue == [] && Next(f', Take) == f'
  {
    RunKeeps(ops);
    var f := Run(IDLE, ops);
    assert (ops + [CloseBus])[..|ops|] == ops;
    var closed := Run(IDLE, ops + [CloseBus]);
    assert closed == BusClosed(f);
    EverythingArrives(ops + [CloseBus]);
  }
}
