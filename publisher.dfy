/** The producer side of the ingest path: the unary call that turns a batch
    of items into a wire request, and the background batcher behind
    PushChannel that buffers items from a channel and publishes them in
    batches. Timer, channel and context are an explicit sequence of events;
    JSON marshalling is a parameter. */
module Publisher {
  import opened Api
  import opened IngestService

  /** An item as adapters hand it over: the source is any value, possibly
      nil. */
  type SourcedItem<Src> = Item<Option<Src>>

  /** The wire form of a source: its JSON encoding, or nothing when the
      source is nil or does not marshal. */
  function WireSource<Src>(source: Option<Src>, marshal: Src -> Option<seq<byte>>): (raw: seq<byte>)
    ensures source.None? ==> raw == []
    ensures source.Some? && marshal(source.value).None? ==> raw == []
    ensures source.Some? && marshal(source.value).Some? ==> raw == marshal(source.value).value
  {
    match source
    case None => []
    case Some(s) =>
      match marshal(s)
      case None => []
      case Some(b) => b
  }

  /** One wire item, with the item's key, handler and result copied. */
  function ToWire<Src>(it: SourcedItem<Src>, marshal: Src -> Option<seq<byte>>): (w: WireItem)
    ensures w.namespace == it.key.namespace && w.name == it.key.name
    ensures w.handlerID == it.handlerID && w.result == it.result
  {
    WireItem(it.key.namespace, it.key.name, it.handlerID, it.result, WireSource(it.source, marshal))
  }

  /** The request body invoke builds: nil items dropped, every other item
      converted, in order. */
  function WireItems<Src>(items: seq<Option<SourcedItem<Src>>>, marshal: Src -> Option<seq<byte>>): (ws: seq<Option<WireItem>>)
    ensures |ws| <= |items|
    decreases |items|
  {
    if items == [] then []
    else
      var init := WireItems(items[..|items| - 1], marshal);
      match items[|items| - 1]
      case None => init
      case Some(it) => init + [Some(ToWire(it, marshal))]
  }

  /** The converted items, one per element. */
  function Wires<Src>(its: seq<SourcedItem<Src>>, marshal: Src -> Option<seq<byte>>): (ws: seq<WireItem>)
    ensures |ws| == |its|
  {
    seq(|its|, j requires 0 <= j < |its| => ToWire(its[j], marshal))
  }

  /** The request has one non-nil wire item per non-nil item, and it is
      that item's conversion. */
  lemma {:induction false} WireItemsMatch<Src>(items: seq<Option<SourcedItem<Src>>>, marshal: Src -> Option<seq<byte>>)
    ensures Present(WireItems(items, marshal)) == Wires(Present(items), marshal)
    ensures |WireItems(items, marshal)| == |Present(items)|
    ensures forall j :: 0 <= j < |WireItems(items, marshal)| ==> WireItems(items, marshal)[j].Some?
    decreases |items|
  {
    if items != [] {
      var init := items[..|items| - 1];
      var last := items[|items| - 1];
      assert items == init + [last];
      WireItemsMatch(init, marshal);
      PresentAppend(init, last);
      var tail: seq<Option<WireItem>> := if last.Some? then [Some(ToWire(last.value, marshal))] else [];
      assert WireItems(items, marshal) == WireItems(init, marshal) + tail;
      PresentConcat(WireItems(init, marshal), tail);
      assert Present(tail) == (if last.Some? then [ToWire(last.value, marshal)] else []);
      assert Wires(Present(items), marshal) == Wires(Present(init), marshal) + Present(tail);
    }
  }

  /** invoke: the request it sends to the PushItems path. */
  method Invoke<Src>(items: seq<Option<SourcedItem<Src>>>, marshal: Src -> Option<seq<byte>>)
    returns (path: string, req: IngestItems)
    ensures path == PushItemsPath
    ensures req.items == WireItems(items, marshal)
  {
    var wire: seq<Option<WireItem>> := [];
    var i := 0;
    while i < |items|
      invariant 0 <= i <= |items|
      invariant wire == WireItems(items[..i], marshal)
    {
      assert items[..i + 1][..i] == items[..i];
      match items[i] {
        case None =>
        case Some(it) =>
          wire := wire + [Some(ToWire(it, marshal))];
      }
      i := i + 1;
    }
    assert items[..i] == items;
    return PushItemsPath, IngestItems(wire);
  }

  /** What the server makes of a published batch: the items in order, with
      key, handler and result unchanged; a nil source arrives as no source,
      and a source whose encoding decodes as a JSON object arrives as that
      object. */
  lemma PublishThenIngest<Src>(items: seq<Option<SourcedItem<Src>>>, marshal: Src -> Option<seq<byte>>,
                               decodeObject: seq<byte> -> Option<map<string, Json>>)
    ensures |Converted(WireItems(items, marshal), decodeObject)| == |Present(items)|
    ensures forall j :: 0 <= j < |Present(items)| ==>
      && Converted(WireItems(items, marshal), decodeObject)[j].key == Present(items)[j].key
      && Converted(WireItems(items, marshal), decodeObject)[j].handlerID == Present(items)[j].handlerID
      && Converted(WireItems(items, marshal), decodeObject)[j].result == Present(items)[j].result
    ensures forall j :: 0 <= j < |Present(items)| && Present(items)[j].source.None? ==>
      Converted(WireItems(items, marshal), decodeObject)[j].source == NoSource
    ensures forall j, raw, m ::
      (&& 0 <= j < |Present(items)| && Present(items)[j].source.Some?
       && marshal(Present(items)[j].source.value) == Some(raw) && raw != [] && raw != NullLiteral
       && decodeObject(raw) == Some(m)) ==>
      Converted(WireItems(items, marshal), decodeObject)[j].source == MapSource(m)
  {
    WireItemsMatch(items, marshal);
  }

  /** What the batching loop reacts to. */
  datatype Event<T> =
    | Received(item: Option<T>)  // a value read from the channel; nil is None
    | ChannelClosed
    | TimerFired
    | ContextDone
    | StopCalled

  /** Events that end the loop after a final flush. */
  predicate Terminal<T>(e: Event<T>) {
    e.ChannelClosed? || e.ContextDone? || e.StopCalled?
  }

  /** The non-nil items among the received values. */
  function ReceivedItems<T>(es: seq<Event<T>>): (its: seq<T>)
    ensures |its| <= |es|
    decreases |es|
  {
    if es == [] then []
    else
      var e := es[|es| - 1];
      ReceivedItems(es[..|es| - 1]) + (if e.Received? && e.item.Some? then [e.item.value] else [])
  }

  datatype Trigger = SizeReached | TimerExpired | FinalFlush

  /** One published batch and what caused it. */
  datatype Flush<T> = Flush(items: seq<T>, trigger: Trigger)

  function Flatten<T>(fs: seq<Flush<T>>): (its: seq<T>)
    decreases |fs|
  {
    if fs == [] then [] else Flatten(fs[..|fs| - 1]) + fs[|fs| - 1].items
  }

  /** The size at which the buffer is flushed: maxBatch, and every item
      alone when maxBatch is 0. */
  function Cap(maxBatch: int): (c: nat)
    ensures c >= 1 && (maxBatch >= 1 ==> c == maxBatch)
  {
    if maxBatch < 1 then 1 else maxBatch
  }

  /** A batch the loop may publish: never empty; exactly Cap items when the
      size triggered it, fewer otherwise. */
  predicate Publishable<T>(f: Flush<T>, maxBatch: int) {
    && f.items != []
    && (f.trigger == SizeReached ==> |f.items| == Cap(maxBatch))
    && (f.trigger != SizeReached ==> |f.items| < Cap(maxBatch))
  }

  /** The loop's variables: the buffer, what it has published, whether it
      has returned, how many events it has handled and when the timer was
      last started (counted in events handled). */
  datatype LoopState<T> = LoopState(batch: seq<T>, published: seq<Flush<T>>, stopped: bool, steps: nat, timerStart: nat)

  /** What holds between events when `received` are the non-nil items
      read so far. */
  ghost predicate Sound<T>(maxBatch: int, s: LoopState<T>, received: seq<T>) {
    && maxBatch >= 0
    && |s.batch| < Cap(maxBatch)
    && Flatten(s.published) + s.batch == received
    && (forall i :: 0 <= i < |s.published| ==> Publishable(s.published[i], maxBatch))
    && (s.stopped ==> s.batch == [])
    && s.timerStart <= s.steps
  }

  /** flush: publish the buffer unless it is empty, then empty it (the
      publish error is dropped). */
  function Flushed<T>(s: LoopState<T>, trigger: Trigger): (t: LoopState<T>)
    ensures t.batch == [] && Flatten(t.published) == Flatten(s.published) + s.batch
    ensures s.batch == [] ==> t.published == s.published
    ensures |s.published| <= |t.published| <= |s.published| + 1 && t.published[..|s.published|] == s.published
  {
    if |s.batch| == 0 then s.(batch := [])
    else
      var t := s.(batch := [], published := s.published + [Flush(s.batch, trigger)]);
      assert t.published[..|s.published|] == s.published;
      t
  }

  /** One turn of the select loop: a nil item is ignored; an item is
      buffered, and a buffer that reaches maxBatch is flushed and the timer
      restarted; the timer flushes and restarts itself; channel close,
      context end and stop flush and return. */
  function Next<T>(maxBatch: int, s: LoopState<T>, e: Event<T>): LoopState<T> {
    var s := s.(steps := s.steps + 1);
    match e
    case Received(item) =>
      if item.None? then s
      else if |s.batch| + 1 >= maxBatch then Flushed(s.(batch := s.batch + [item.value]), SizeReached).(timerStart := s.steps)
      else s.(batch := s.batch + [item.value])
    case TimerFired => Flushed(s, TimerExpired).(timerStart := s.steps)
    case _ => Flushed(s, FinalFlush).(stopped := true)
  }

  /** Every turn keeps the loop sound, and ends it exactly on close,
      cancellation or stop. */
  lemma NextSound<T>(maxBatch: int, s: LoopState<T>, received: seq<T>, e: Event<T>)
    requires Sound(maxBatch, s, received) && !s.stopped
    ensures Sound(maxBatch, Next(maxBatch, s, e), received + ReceivedItems([e]))
    ensures Next(maxBatch, s, e).stopped <==> Terminal(e)
    ensures |s.published| <= |Next(maxBatch, s, e).published|
    ensures Next(maxBatch, s, e).published[..|s.published|] == s.published
  {
    assert [e][..0] == [];
    var t := Next(maxBatch, s, e);
    var r := received + ReceivedItems([e]);
    forall i | 0 <= i < |t.published| ensures Publishable(t.published[i], maxBatch) {
      if i >= |s.published| {
        assert i == |s.published|;
      } else {
        assert t.published[i] == t.published[..|s.published|][i];
      }
    }
    if e.Received? && e.item.Some? {
      assert Flatten(s.published) + (s.batch + [e.item.value]) == r;
    }
  }

  /** The timer is restarted exactly on a timer tick and on a size-triggered
      flush; a nil item changes nothing but the event count. */
  lemma NextTimer<T>(maxBatch: int, s: LoopState<T>, e: Event<T>)
    requires s.timerStart <= s.steps
    ensures Next(maxBatch, s, e).steps == s.steps + 1
    ensures Next(maxBatch, s, e).timerStart == s.steps + 1 <==>
      e.TimerFired? || (e.Received? && e.item.Some? && |s.batch| + 1 >= maxBatch)
    ensures Next(maxBatch, s, e).timerStart != s.steps + 1 ==> Next(maxBatch, s, e).timerStart == s.timerStart
    ensures e == Received(None) ==> Next(maxBatch, s, e) == s.(steps := s.steps + 1)
  {
  }

  /** The loop before any event: an empty buffer and a fresh timer. */
  lemma StartSound<T>(maxBatch: int)
    requires maxBatch >= 0
    ensures Sound<T>(maxBatch, LoopState([], [], false, 0, 0), [])
  {
    assert Flatten<T>([]) + [] == [];
  }

  /** What each turn does to the buffer and the published batches: a nil
      item changes neither; an item that leaves the buffer below Cap is
      buffered; one that fills it publishes the full buffer; a timer tick
      publishes the partial buffer (nothing when it is empty); close,
      cancellation and stop publish the partial buffer and end the loop. */
  lemma NextEffect<T>(maxBatch: int, s: LoopState<T>, e: Event<T>)
    ensures e == Received(None) ==> Next(maxBatch, s, e) == s.(steps := s.steps + 1)
    ensures e.Received? && e.item.Some? && |s.batch| + 1 < Cap(maxBatch) ==>
      && Next(maxBatch, s, e).batch == s.batch + [e.item.value]
      && Next(maxBatch, s, e).published == s.published
      && Next(maxBatch, s, e).stopped == s.stopped
    ensures e.Received? && e.item.Some? && |s.batch| + 1 >= Cap(maxBatch) ==>
      && Next(maxBatch, s, e).batch == []
      && Next(maxBatch, s, e).published == s.published + [Flush(s.batch + [e.item.value], SizeReached)]
      && Next(maxBatch, s, e).stopped == s.stopped
    ensures e.TimerFired? ==>
      && Next(maxBatch, s, e).batch == []
      && Next(maxBatch, s, e).published == s.published + (if s.batch == [] then [] else [Flush(s.batch, TimerExpired)])
      && Next(maxBatch, s, e).stopped == s.stopped
    ensures Terminal(e) ==>
      && Next(maxBatch, s, e).batch == []
      && Next(maxBatch, s, e).published == s.published + (if s.batch == [] then [] else [Flush(s.batch, FinalFlush)])
      && Next(maxBatch, s, e).stopped
  {
  }

  /** The loop's state after a sequence of events, one turn of Next each,
      from an empty buffer and a fresh timer. */
  function Run<T>(maxBatch: int, es: seq<Event<T>>): (t: LoopState<T>)
    ensures t.steps == |es|
    decreases |es|
  {
    if es == [] then LoopState([], [], false, 0, 0)
    else Next(maxBatch, Run(maxBatch, es[..|es| - 1]), es[|es| - 1])
  }

  lemma RunStep<T>(maxBatch: int, es: seq<Event<T>>, k: int)
    requires 0 <= k < |es|
    ensures Run(maxBatch, es[..k + 1]) == Next(maxBatch, Run(maxBatch, es[..k]), es[k])
  {
    assert es[..k + 1][..k] == es[..k];
  }

  /** Until an event ends it, the loop stays sound, and it has stopped
      exactly when the last event was terminal. */
  lemma {:induction false} RunSound<T>(maxBatch: int, es: seq<Event<T>>)
    requires maxBatch >= 0
    requires forall i :: 0 <= i < |es| - 1 ==> !Terminal(es[i])
    ensures Sound(maxBatch, Run(maxBatch, es), ReceivedItems(es))
    ensures Run(maxBatch, es).stopped <==> |es| > 0 && Terminal(es[|es| - 1])
    decreases |es|
  {
    if es == [] {
      StartSound<T>(maxBatch);
    } else {
      var init := es[..|es| - 1];
      RunSound(maxBatch, init);
      NextSound(maxBatch, Run(maxBatch, init), ReceivedItems(init), es[|es| - 1]);
      ReceivedStep(es, |es| - 1);
      assert es[..|es|] == es;
    }
  }

  /** What the loop has done after the first `handled` events when none
      but the last of them ended it: it is sound, every published batch
      holds 1 to Cap items, and once stopped it has published every
      non-nil item received, in order. */
  lemma RunOutcome<T>(maxBatch: int, events: seq<Event<T>>, handled: nat)
    requires maxBatch >= 0 && handled <= |events|
    requires forall i :: 0 <= i < handled - 1 ==> !Terminal(events[i])
    ensures Sound(maxBatch, Run(maxBatch, events[..handled]), ReceivedItems(events[..handled]))
    ensures forall i :: 0 <= i < |Run(maxBatch, events[..handled]).published| ==>
      1 <= |Run(maxBatch, events[..handled]).published[i].items| <= Cap(maxBatch)
    ensures Run(maxBatch, events[..handled]).stopped ==>
      Flatten(Run(maxBatch, events[..handled]).published) == ReceivedItems(events[..handled])
  {
    var es := events[..handled];
    assert forall i :: 0 <= i < |es| - 1 ==> es[i] == events[i];
    RunSound(maxBatch, es);
    var t := Run(maxBatch, es);
    if t.stopped {
      assert Flatten(t.published) + [] == Flatten(t.published);
    }
    forall i | 0 <= i < |t.published|
      ensures 1 <= |t.published[i].items| <= Cap(maxBatch)
    {
      assert Publishable(t.published[i], maxBatch);
    }
  }

  /** A timer tick flushes the partial buffer and re-arms the timer: right
      after a tick every non-nil item received so far has been published,
      and the timer restarts at that turn. */
  lemma TickFlushes<T>(maxBatch: int, es: seq<Event<T>>, k: int)
    requires maxBatch >= 0 && 0 <= k < |es| && es[k].TimerFired?
    requires forall i :: 0 <= i < k ==> !Terminal(es[i])
    ensures Run(maxBatch, es[..k + 1]).batch == []
    ensures Flatten(Run(maxBatch, es[..k + 1]).published) == ReceivedItems(es[..k + 1])
    ensures Run(maxBatch, es[..k + 1]).timerStart == k + 1
    ensures !Run(maxBatch, es[..k + 1]).stopped
  {
    var pre := es[..k + 1];
    assert pre[..|pre| - 1] == es[..k];
    RunSound(maxBatch, pre);
    NextEffect(maxBatch, Run(maxBatch, es[..k]), es[k]);
    assert Flatten(Run(maxBatch, pre).published) + [] == ReceivedItems(pre);
  }

  lemma ReceivedStep<T>(es: seq<Event<T>>, k: int)
    requires 0 <= k < |es|
    ensures ReceivedItems(es[..k + 1]) == ReceivedItems(es[..k]) + ReceivedItems([es[k]])
  {
    assert es[..k + 1][..k] == es[..k];
    assert [es[k]][..0] == [];
  }

  lemma PrefixOfPrefix<T>(a: seq<T>, b: seq<T>, c: seq<T>)
    requires |a| <= |b| && b[..|a|] == a
    requires |b| <= |c| && c[..|b|] == b
    ensures |a| <= |c| && c[..|a|] == a
  {
    assert c[..|a|] == c[..|b|][..|a|];
  }

  /** The goroutine PushChannel starts: from an empty buffer and a fresh
      timer, one turn of Next per event, until an event ends it or none
      are left (`handled` counts the events taken). Every published batch
      is non-empty and no longer than maxBatch; the published batches
      followed by the buffer are the non-nil items received, in order; and
      once the loop has returned, all of them have been published. A
      negative maxBatch makes the channel and buffer allocation panic. */
  method PushLoop<T>(maxBatch: int, events: seq<Event<T>>) returns (s: LoopState<T>, handled: nat)
    requires maxBatch >= 0
    ensures handled <= |events|
    ensures forall i :: 0 <= i < handled - 1 ==> !Terminal(events[i])
    ensures s.stopped <==> 0 < handled && Terminal(events[handled - 1])
    ensures !s.stopped ==> handled == |events|
    ensures Sound(maxBatch, s, ReceivedItems(events[..handled]))
    ensures forall i :: 0 <= i < |s.published| ==> 1 <= |s.published[i].items| <= Cap(maxBatch)
    ensures s.stopped ==> Flatten(s.published) == ReceivedItems(events[..handled])
    ensures s == Run(maxBatch, events[..handled])
  {
    s := LoopState([], [], false, 0, 0);
    handled := 0;
    assert events[..0] == [];
    while handled < |events| && !s.stopped
      invariant handled <= |events|
      invariant forall i :: 0 <= i < handled - 1 ==> !Terminal(events[i])
      invariant s.stopped <==> 0 < handled && Terminal(events[handled - 1])
      invariant s == Run(maxBatch, events[..handled])
    {
      NextEffect(maxBatch, s, events[handled]);
      RunStep(maxBatch, events, handled);
      s := Next(maxBatch, s, events[handled]);
      handled := handled + 1;
    }
    RunOutcome(maxBatch, events, handled);
  }
}
