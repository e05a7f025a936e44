/** The handler of one event-stream connection, as it runs. */
module EventServers {
  import opened Prelude
  import opened Wire
  import opened Events
  import opened EventDelivery
  import opened EventClients
  import opened EventStreams

  class EventStream {
    const codec: Codec
    const bus: Bus
    const subscription: Subscription
    const head: bytes
    var written: bytes                 // everything handed to the socket
    var finished: bool

    ghost var start: nat               // how many events had been published when it attached
    ghost var frames: seq<Frame>
    ghost var sent: seq<Event>         // the events in those frames

    /** The bytes written are the head and the frames, and the frames are the events sent. */
    ghost predicate Faithful()
      reads this`written, this`frames, this`sent
    {
      written == head + Written(codec, frames) && EventsIn(frames) == sent
    }

    ghost predicate Valid()
      reads this, bus, bus.subscribers
    {
      Faithful() && bus.Valid() && (finished ==> subscription !in bus.subscribers)
    }

    /** This connection as a session of the delivery machine; how it was cut off is history the
        connection does not see. */
    ghost function AsFeed(cut: Cut): EventDelivery.Feed
      reads this, bus, subscription
    {
      Feed(bus.log, Streaming(start, bus.Box(subscription), sent, finished, cut))
    }

    /** The head is written before anything is subscribed to. */
    constructor (codec: Codec, bus: Bus)
      ensures this.codec == codec && this.bus == bus && head == HeadText(HeadLines())
      ensures Faithful() && sent == [] && !finished
      ensures fresh(subscription) && subscription.queue == [] && !subscription.dropped
    {
      var first := HeadText(HeadLines());
      this.codec := codec;
      this.bus := bus;
      subscription := new Subscription();
      head := first;
      written := first;
      finished := false;
      start := 0;
      frames := [];
      sent := [];
      NothingWritten(first, codec);
    }

    /** Attach and replay the history, before anything else can be published. */
    method Subscribe()
      requires Faithful() && sent == [] && !finished && bus.Valid()
      requires subscription.queue == [] && !subscription.dropped
      modifies this`written, this`frames, this`sent, this`start, bus`subscribers
      ensures Valid() && AsFeed(Uncut) == EventDelivery.Next(Feed(bus.log, NotYet), EventDelivery.Attach)
      ensures bus.subscribers == old(bus.subscribers) + {subscription}
    {
      start := |bus.log|;
      bus.Attach(subscription);
      ghost var log := bus.log;
      var history := bus.history;
      Replay(history);
      AttachReplays(log);
    }

    method Replay(history: seq<Event>)
      requires Faithful() && sent == []
      modifies this`written, this`frames, this`sent
      ensures Faithful() && sent == history
    {
      for i := 0 to |history|
        invariant Faithful() && sent == history[..i]
      {
        PrefixStep(history, i);
        Write(Data(history[i]));
      }
      WholePrefix(history);
    }

    method Write(frame: Frame)
      requires Faithful()
      modifies this`written, this`frames, this`sent
      ensures Faithful() && written == old(written) + FrameBytes(codec, frame)
      ensures sent == if frame.Data? then old(sent) + [frame.event] else old(sent)
    {
      OneMoreFrame(head, codec, frames, frame);
      written := written + FrameBytes(codec, frame);
      frames := frames + [frame];
      sent := if frame.Data? then sent + [frame.event] else sent;
    }

    /** `subscription.get()`, and leaving the subscription when it gives the sentinel. */
    method TakeItem(ghost cut: Cut) returns (item: Option<Event>)
      requires bus.Valid() && !finished && subscription.queue != []
      modifies this`finished, subscription`queue, bus`subscribers
      ensures item == old(subscription.queue)[0] && finished == item.None? && bus.Valid()
      ensures bus.subscribers == if item.None? then old(bus.subscribers) - {subscription} else old(bus.subscribers)
      ensures AsFeed(cut).(session := AsFeed(cut).session.(sent := Took(old(AsFeed(cut))).session.sent))
              == Took(old(AsFeed(cut)))
    {
      var first := subscription.GetNowait();
      item := first.value;
      if item.None? {
        finished := true;
        bus.Detach(subscription);
      }
    }

    /** One turn of the loop in which no item came in time. */
    method KeepAlive()
      requires Valid() && !finished
      modifies this`written, this`frames, this`sent
      ensures Valid() && sent == old(sent) && written == old(written) + FrameBytes(codec, Keepalive)
    {
      Write(Keepalive);
    }

    /** One turn with an item: an event is written, the sentinel ends the stream. */
    method Turn(ghost cut: Cut)
      requires Valid() && !finished && subscription.queue != []
      modifies this`written, this`frames, this`sent, this`finished, subscription`queue, bus`subscribers
      ensures Valid() && AsFeed(cut) == EventDelivery.Next(old(AsFeed(cut)), Take)
      ensures bus.subscribers - {subscription} == old(bus.subscribers) - {subscription}
    {
      var item := TakeItem(cut);
      if item.Some? {
        Write(Data(item.value));
      }
    }

    /** The peer went away, or the handler was cancelled. */
    method Abandon()
      requires Valid() && !finished
      modifies this`finished, bus`subscribers
      ensures Valid() && finished && bus.subscribers == old(bus.subscribers) - {subscription}
    {
      finished := true;
      bus.Detach(subscription);
    }
  }

  lemma AttachReplays(log: seq<Event>)
    ensures EventDelivery.Next(Feed(log, NotYet), EventDelivery.Attach)
            == Feed(log, Streaming(|log|, Mailbox([], true, false), Events.Newest(log, HISTORY_SIZE), false, Uncut))
  {
  }

  lemma PrefixStep(history: seq<Event>, i: nat)
    requires i < |history|
    ensures history[..i + 1] == history[..i] + [history[i]]
  {
  }

  lemma NothingWritten(head: bytes, codec: Codec)
    ensures head == head + Written(codec, []) && EventsIn([]) == []
  {
  }

  lemma OneMoreFrame(head: bytes, codec: Codec, frames: seq<Frame>, frame: Frame)
    ensures head + Written(codec, frames + [frame]) == (head + Written(codec, frames)) + FrameBytes(codec, frame)
    ensures EventsIn(frames + [frame]) == if frame.Data? then EventsIn(frames) + [frame.event] else EventsIn(frames)
  {
    assert (frames + [frame])[..|frames|] == frames;
    Regroup(head, Written(codec, frames), FrameBytes(codec, frame));
  }
}
