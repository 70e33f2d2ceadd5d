/** The JSON-over-gRPC ingest service: the wire envelope, the decoding of an
    item's raw source, the unary PushItems and the client-streaming
    StreamItems handlers that feed the publisher's item channel, and the
    service's method table. The channel is a queue; the request context is
    a Deadline that lets a fixed number of sends through. */
module IngestService {
  import opened Api

  /** An item on the wire; `source` is the raw JSON of the payload
      (json.RawMessage), empty when absent. */
  datatype WireItem = WireItem(namespace: string, name: string, handlerID: string, result: ReportResult, source: seq<byte>)

  /** A batch: a slice of pointers, any of which may be nil. */
  datatype IngestItems = IngestItems(items: seq<Option<WireItem>>)

  datatype Ack = Ack(accepted: int)

  /** What an ingested item carries as its source: nothing, the decoded
      object, or the raw bytes when they are not a JSON object. */
  datatype ItemSource = NoSource | MapSource(fields: map<string, Json>) | RawSource(raw: seq<byte>)

  /** Why a handler call ends with an error. */
  datatype CallError = ContextEnded | SendFailed

  /** How long the caller's context lasts, counted in channel sends: every
      send within the allowance succeeds; the next one finds the context
      done. */
  datatype Deadline = Never | AfterSends(sends: nat)

  predicate Fits(d: Deadline, sends: nat) {
    d.Never? || sends <= d.sends
  }

  /** The bytes of the JSON literal `null`. */
  const NullLiteral: seq<byte> := [0x6e, 0x75, 0x6c, 0x6c]

  /** Source handling: empty or `null` is no source; otherwise decodeObject
      (json.Unmarshal into map[string]any) is tried and the raw bytes are
      kept when it fails. */
  function DecodeSource(raw: seq<byte>, decodeObject: seq<byte> -> Option<map<string, Json>>): (src: ItemSource)
    ensures src.NoSource? <==> raw == [] || raw == NullLiteral
    ensures src.RawSource? ==> src.raw == raw && decodeObject(raw).None?
    ensures src.MapSource? ==> decodeObject(raw) == Some(src.fields)
    ensures raw != [] && raw != NullLiteral && decodeObject(raw).None? ==> src == RawSource(raw)
  {
    if |raw| == 0 || raw == NullLiteral then NoSource
    else
      match decodeObject(raw)
      case Some(m) => MapSource(m)
      case None => RawSource(raw)
  }

  /** The item a wire item becomes. */
  function ToItem(wi: WireItem, decodeObject: seq<byte> -> Option<map<string, Json>>): (it: Item<ItemSource>)
    ensures it.key == ObjectKey(wi.namespace, wi.name) && it.handlerID == wi.handlerID && it.result == wi.result
  {
    ItemFor(wi.handlerID, wi.namespace, wi.name, wi.result, DecodeSource(wi.source, decodeObject))
  }

  /** The items a batch enqueues when nothing stops it: the non-nil wire
      items, converted, in order. */
  function Converted(ws: seq<Option<WireItem>>, decodeObject: seq<byte> -> Option<map<string, Json>>): (its: seq<Item<ItemSource>>)
    ensures |its| == |Present(ws)|
  {
    var p := Present(ws);
    seq(|p|, j requires 0 <= j < |p| => ToItem(p[j], decodeObject))
  }

  lemma ConvertedConcat(xs: seq<Option<WireItem>>, ys: seq<Option<WireItem>>, decodeObject: seq<byte> -> Option<map<string, Json>>)
    ensures Converted(xs + ys, decodeObject) == Converted(xs, decodeObject) + Converted(ys, decodeObject)
  {
    PresentConcat(xs, ys);
  }

  /** One more wire item: a nil one adds nothing, a non-nil one adds its
      conversion, which is also the next item of the whole batch. */
  lemma ConvertedStep(items: seq<Option<WireItem>>, idx: int, decodeObject: seq<byte> -> Option<map<string, Json>>)
    requires 0 <= idx < |items|
    ensures Converted(items[..idx + 1], decodeObject) ==
      Converted(items[..idx], decodeObject) + (if items[idx].Some? then [ToItem(items[idx].value, decodeObject)] else [])
    ensures |Converted(items[..idx + 1], decodeObject)| <= |Converted(items, decodeObject)|
    ensures Converted(items, decodeObject)[..|Converted(items[..idx + 1], decodeObject)|] == Converted(items[..idx + 1], decodeObject)
  {
    assert items[..idx + 1] == items[..idx] + [items[idx]];
    PresentAppend(items[..idx], items[idx]);
    assert items == items[..idx + 1] + items[idx + 1..];
    ConvertedConcat(items[..idx + 1], items[idx + 1..], decodeObject);
  }

  /** Cutting a sequence whose prefix is known. */
  lemma CutPrefix<T>(full: seq<T>, a: seq<T>, b: seq<T>, k: int)
    requires |a + b| <= |full| && full[..|a + b|] == a + b
    requires |a| <= k <= |a + b|
    ensures a + b[..k - |a|] == full[..k]
  {
    assert (a + b)[..k] == a + b[..k - |a|];
  }

  /** The number of non-nil wire items in a stream of batches. */
  function Total(batches: seq<IngestItems>): nat
    decreases |batches|
  {
    if batches == [] then 0 else Total(batches[..|batches| - 1]) + |Present(batches[|batches| - 1].items)|
  }

  /** The items a stream of batches enqueues when nothing stops it: each
      batch's conversion, batch after batch. */
  function StreamEnqueued(batches: seq<IngestItems>, decodeObject: seq<byte> -> Option<map<string, Json>>): (its: seq<Item<ItemSource>>)
    ensures |its| == Total(batches)
    decreases |batches|
  {
    if batches == [] then []
    else StreamEnqueued(batches[..|batches| - 1], decodeObject) + Converted(batches[|batches| - 1].items, decodeObject)
  }

  /** One batch of a stream: what it adds to the total and to the queue. */
  lemma StreamStep(batches: seq<IngestItems>, b: int, decodeObject: seq<byte> -> Option<map<string, Json>>)
    requires 0 <= b < |batches|
    ensures Total(batches[..b + 1]) == Total(batches[..b]) + |Converted(batches[b].items, decodeObject)|
    ensures StreamEnqueued(batches[..b + 1], decodeObject) ==
      StreamEnqueued(batches[..b], decodeObject) + Converted(batches[b].items, decodeObject)
  {
    assert batches[..b + 1][..b] == batches[..b];
  }

  /** The running total never goes down as batches arrive. */
  lemma {:induction false} TotalMonotone(batches: seq<IngestItems>, i: int, j: int)
    requires 0 <= i <= j <= |batches|
    ensures Total(batches[..i]) <= Total(batches[..j])
    decreases j - i
  {
    if i < j {
      TotalMonotone(batches, i, j - 1);
      assert batches[..j][..j - 1] == batches[..j - 1];
    }
  }

  /** The acknowledgements a stream sends for its first b batches: the
      running totals. */
  function RunningAcks(batches: seq<IngestItems>, b: nat): (acks: seq<Ack>)
    requires b <= |batches|
    ensures |acks| == b
  {
    seq(b, j requires 0 <= j < b => Ack(Total(batches[..j + 1])))
  }

  /** The acknowledged totals never go down. */
  lemma RunningAcksMonotone(batches: seq<IngestItems>, b: nat)
    requires b <= |batches|
    ensures forall i, j :: 0 <= i <= j < b ==> RunningAcks(batches, b)[i].accepted <= RunningAcks(batches, b)[j].accepted
  {
    forall i, j | 0 <= i <= j < b
      ensures RunningAcks(batches, b)[i].accepted <= RunningAcks(batches, b)[j].accepted
    {
      TotalMonotone(batches, i + 1, j + 1);
    }
  }

  lemma RunningAcksStep(batches: seq<IngestItems>, b: nat)
    requires b < |batches|
    ensures RunningAcks(batches, b + 1) == RunningAcks(batches, b) + [Ack(Total(batches[..b + 1]))]
  {
  }

  /** A stream cut off k items in, during batch b: the queue holds the
      first k items of the whole stream. */
  lemma StreamCut(batches: seq<IngestItems>, b: int, k: int, decodeObject: seq<byte> -> Option<map<string, Json>>)
    requires 0 <= b < |batches|
    requires Total(batches[..b]) <= k < Total(batches[..b + 1])
    ensures k < Total(batches)
    ensures k - Total(batches[..b]) <= |Converted(batches[b].items, decodeObject)|
    ensures StreamEnqueued(batches[..b], decodeObject) + Converted(batches[b].items, decodeObject)[..k - Total(batches[..b])]
      == StreamEnqueued(batches, decodeObject)[..k]
  {
    StreamStep(batches, b, decodeObject);
    StreamPrefix(batches, b + 1, decodeObject);
    TotalMonotone(batches, b + 1, |batches|);
    assert batches[..|batches|] == batches;
    CutPrefix(StreamEnqueued(batches, decodeObject), StreamEnqueued(batches[..b], decodeObject),
      Converted(batches[b].items, decodeObject), k);
  }

  /** A batch the context lets through: the stream has then sent its
      first b + 1 batches. */
  lemma BatchDelivered(batches: seq<IngestItems>, b: int, n: nat, decodeObject: seq<byte> -> Option<map<string, Json>>)
    requires 0 <= b < |batches| && n == |Converted(batches[b].items, decodeObject)|
    ensures Total(batches[..b]) + n == Total(batches[..b + 1])
    ensures StreamEnqueued(batches[..b], decodeObject) + Converted(batches[b].items, decodeObject)[..n]
      == StreamEnqueued(batches[..b + 1], decodeObject)
  {
    StreamStep(batches, b, decodeObject);
    assert Converted(batches[b].items, decodeObject)[..n] == Converted(batches[b].items, decodeObject);
  }

  /** A batch the context ends n items into: the stream has then sent the
      first d.sends items of the whole stream. */
  lemma BatchCut(batches: seq<IngestItems>, b: int, d: Deadline, n: nat, decodeObject: seq<byte> -> Option<map<string, Json>>)
    requires 0 <= b < |batches| && d.AfterSends?
    requires Total(batches[..b]) + n == d.sends && n < |Converted(batches[b].items, decodeObject)|
    ensures !Fits(d, Total(batches[..b + 1])) && d.sends < Total(batches)
    ensures StreamEnqueued(batches[..b], decodeObject) + Converted(batches[b].items, decodeObject)[..n]
      == StreamEnqueued(batches, decodeObject)[..d.sends]
  {
    StreamStep(batches, b, decodeObject);
    StreamCut(batches, b, d.sends, decodeObject);
  }

  /** The batches a stream reads before it stops for a failed
      acknowledgement: all of them, or those up to and including the one
      whose acknowledgement cannot be sent. */
  function AckedBatches(recvs: seq<IngestItems>, ackFailsAt: Option<nat>): (n: nat)
    ensures n <= |recvs|
    ensures ackFailsAt.Some? && ackFailsAt.value < |recvs| ==> n == ackFailsAt.value + 1
    ensures ackFailsAt.None? || ackFailsAt.value >= |recvs| ==> n == |recvs|
  {
    if ackFailsAt.Some? && ackFailsAt.value < |recvs| then ackFailsAt.value + 1 else |recvs|
  }

  /** The service's side of the publisher's item channel. */

  class IngestServer {
    var queue: seq<Item<ItemSource>>

    constructor ()
      ensures queue == []
    {
      queue := [];
    }

    /** The loop PushItems and StreamItems share: skip nil wire items,
        convert the others and send them in order, counting each send;
        stop when the context ends. `sent` sends of this context have
        already happened. */
    method Enqueue(items: seq<Option<WireItem>>, d: Deadline, sent: nat, decodeObject: seq<byte> -> Option<map<string, Json>>)
      returns (accepted: nat, cancelled: bool)
      requires Fits(d, sent)
      modifies this`queue
      ensures cancelled <==> !Fits(d, sent + |Converted(items, decodeObject)|)
      ensures !cancelled ==> accepted == |Converted(items, decodeObject)| && queue == old(queue) + Converted(items, decodeObject)
      ensures cancelled ==>
        && d.AfterSends? && sent + accepted == d.sends && accepted < |Converted(items, decodeObject)|
        && queue == old(queue) + Converted(items, decodeObject)[..accepted]
    {
      accepted := 0;
      var idx := 0;
      assert items[..0] == [];
      while idx < |items|
        invariant 0 <= idx <= |items|
        invariant accepted == |Converted(items[..idx], decodeObject)|
        invariant Fits(d, sent + accepted)
        invariant queue == old(queue) + Converted(items[..idx], decodeObject)
      {
        ConvertedStep(items, idx, decodeObject);
        match items[idx] {
          case None =>
          case Some(wi) =>
            var it := ToItem(wi, decodeObject);
            if !Fits(d, sent + accepted + 1) {
              CutPrefix(Converted(items, decodeObject), Converted(items[..idx], decodeObject), [], accepted);
              return accepted, true;
            }
            queue := queue + [it];
            accepted := accepted + 1;
        }
        idx := idx + 1;
      }
      assert items[..idx] == items;
      cancelled := false;
    }

    /** PushItems: a nil request is acknowledged with 0; otherwise the
        batch is enqueued and the acknowledgement counts what was
        enqueued. When the context ends first, the call fails with no
        acknowledgement and what was already sent stays queued. */
    method PushItems(req: Option<IngestItems>, d: Deadline, decodeObject: seq<byte> -> Option<map<string, Json>>)
      returns (ack: Option<Ack>, err: Option<CallError>)
      modifies this`queue
      ensures req.None? ==> ack == Some(Ack(0)) && err.None? && queue == old(queue)
      ensures req.Some? && Fits(d, |Present(req.value.items)|) ==>
        && ack == Some(Ack(|Present(req.value.items)|)) && err.None?
        && queue == old(queue) + Converted(req.value.items, decodeObject)
      ensures req.Some? && !Fits(d, |Present(req.value.items)|) ==>
        && ack.None? && err == Some(ContextEnded) && d.AfterSends? && d.sends < |Present(req.value.items)|
        && queue == old(queue) + Converted(req.value.items, decodeObject)[..d.sends]
    {
      if req.None? {
        return Some(Ack(0)), None;
      }
      var accepted, cancelled := Enqueue(req.value.items, d, 0, decodeObject);
      if cancelled {
        return None, Some(ContextEnded);
      }
      return Some(Ack(accepted)), None;
    }

    /** One receive of StreamItems: the batch is enqueued after the
        `Total(recvs[..b])` items the stream has already sent; `start` is
        the queue before the stream. */
    method ReceiveBatch(recvs: seq<IngestItems>, b: nat, d: Deadline, accepted: nat, ghost start: seq<Item<ItemSource>>,
                        decodeObject: seq<byte> -> Option<map<string, Json>>)
      returns (total: nat, cancelled: bool)
      requires b < |recvs| && accepted == Total(recvs[..b]) && Fits(d, accepted)
      requires queue == start + StreamEnqueued(recvs[..b], decodeObject)
      modifies this`queue
      ensures cancelled <==> !Fits(d, Total(recvs[..b + 1]))
      ensures !cancelled ==> total == Total(recvs[..b + 1]) && queue == start + StreamEnqueued(recvs[..b + 1], decodeObject)
      ensures cancelled ==>
        && d.AfterSends? && d.sends < Total(recvs)
        && queue == start + StreamEnqueued(recvs, decodeObject)[..d.sends]
    {
      ghost var done := StreamEnqueued(recvs[..b], decodeObject);
      ghost var batch := Converted(recvs[b].items, decodeObject);
      var n;
      n, cancelled := Enqueue(recvs[b].items, d, accepted, decodeObject);
      total := accepted + n;
      if !cancelled {
        assert batch[..n] == batch;
      }
      assert queue == start + (done + batch[..n]);
      if cancelled {
        BatchCut(recvs, b, d, n, decodeObject);
      } else {
        BatchDelivered(recvs, b, n, decodeObject);
      }
    }

    /** StreamItems: every received batch is enqueued and answered with the
        running total accepted so far. The first receive error (the client
        is done, the stream broke) ends the call without error; receives are
        the batches in `recvs`. A context that ends or an acknowledgement
        that cannot be sent (the one after batch `ackFailsAt`) ends it with
        an error. */
    method StreamItems(recvs: seq<IngestItems>, d: Deadline, ackFailsAt: Option<nat>,
                       decodeObject: seq<byte> -> Option<map<string, Json>>)
      returns (acks: seq<Ack>, err: Option<CallError>)
      modifies this`queue
      ensures |acks| <= |recvs| && acks == RunningAcks(recvs, |acks|)
      ensures err.None? ==> |acks| == |recvs| && queue == old(queue) + StreamEnqueued(recvs, decodeObject)
      ensures err == Some(ContextEnded) ==>
        && d.AfterSends? && d.sends < Total(recvs)
        && queue == old(queue) + StreamEnqueued(recvs, decodeObject)[..d.sends]
      ensures err == Some(SendFailed) ==>
        && ackFailsAt == Some(|acks|) && |acks| < |recvs|
        && queue == old(queue) + StreamEnqueued(recvs[..|acks| + 1], decodeObject)
      ensures err.None? <==> Fits(d, Total(recvs)) && (ackFailsAt.None? || ackFailsAt.value >= |recvs|)
      ensures err == Some(ContextEnded) <==> !Fits(d, Total(recvs[..AckedBatches(recvs, ackFailsAt)]))
      ensures err == Some(SendFailed) <==>
        && Fits(d, Total(recvs[..AckedBatches(recvs, ackFailsAt)]))
        && ackFailsAt.Some? && ackFailsAt.value < |recvs|
    {
      acks := [];
      var accepted := 0;
      var b := 0;
      assert recvs[..0] == [];
      while b < |recvs|
        invariant 0 <= b <= |recvs| && acks == RunningAcks(recvs, b)
        invariant accepted == Total(recvs[..b]) && Fits(d, accepted)
        invariant ackFailsAt.None? || b <= ackFailsAt.value
        invariant queue == old(queue) + StreamEnqueued(recvs[..b], decodeObject)
      {
        var total, cancelled := ReceiveBatch(recvs, b, d, accepted, old(queue), decodeObject);
        if cancelled {
          TotalMonotone(recvs, b + 1, AckedBatches(recvs, ackFailsAt));
          return acks, Some(ContextEnded);
        }
        accepted := total;
        if ackFailsAt == Some(b) {
          return acks, Some(SendFailed);
        }
        RunningAcksStep(recvs, b);
        acks := acks + [Ack(accepted)];
        b := b + 1;
      }
      assert recvs[..b] == recvs;
      err := None;
    }
  }

  /** A prefix of the stream enqueues a prefix of its items. */
  lemma {:induction false} StreamPrefix(batches: seq<IngestItems>, b: int, decodeObject: seq<byte> -> Option<map<string, Json>>)
    requires 0 <= b <= |batches|
    ensures |StreamEnqueued(batches[..b], decodeObject)| <= |StreamEnqueued(batches, decodeObject)|
    ensures StreamEnqueued(batches, decodeObject)[..|StreamEnqueued(batches[..b], decodeObject)|]
      == StreamEnqueued(batches[..b], decodeObject)
    decreases |batches| - b
  {
    if b < |batches| {
      StreamPrefix(batches, b + 1, decodeObject);
      StreamStep(batches, b, decodeObject);
      var c0 := StreamEnqueued(batches[..b], decodeObject);
      var c1 := StreamEnqueued(batches[..b + 1], decodeObject);
      assert c1[..|c0|] == c0;
    } else {
      assert batches[..b] == batches;
    }
  }

  /** A unary method of the service table. */
  datatype MethodDesc = MethodDesc(methodName: string)

  /** A streaming method of the service table. */
  datatype StreamDesc = StreamDesc(streamName: string, serverStreams: bool, clientStreams: bool)

  datatype ServiceDesc = ServiceDesc(serviceName: string, methods: seq<MethodDesc>, streams: seq<StreamDesc>)

  const ServiceName: string := "policyreport.publisher.v1.IngestService"

  /** The table registered by hand in place of generated code. */
  const IngestServiceDesc: ServiceDesc :=
    ServiceDesc(ServiceName, [MethodDesc("PushItems")], [StreamDesc("StreamItems", true, true)])

  /** gRPC's full method name: "/" service "/" method. */
  function FullMethod(service: string, methodName: string): (p: string)
    ensures |p| == |service| + |methodName| + 2 && p[0] == '/' && p[|service| + 1] == '/'
    ensures p[1..|service| + 1] == service && p[|service| + 2..] == methodName
  {
    "/" + service + "/" + methodName
  }

  /** The path the publisher invokes, which is also the full method name
      the unary handler reports to interceptors: the table's one unary
      method under the table's service name. */
  const PushItemsPath: string := FullMethod(IngestServiceDesc.serviceName, IngestServiceDesc.methods[0].methodName)

  /** The unary handler's request decoding: a fresh request that the codec
      fills in, or the codec's error. */
  datatype Decoded = DecodeFailed(msg: string) | DecodedItems(req: IngestItems)

  /** The table's PushItems handler (without interceptor): a decode error
      is returned before any item is enqueued; otherwise PushItems runs on a
      request that is never nil. */
  method HandlePushItems(srv: IngestServer, decoded: Decoded, d: Deadline, decodeObject: seq<byte> -> Option<map<string, Json>>)
    returns (ack: Option<Ack>, err: Option<string>)
    modifies srv`queue
    ensures decoded.DecodeFailed? ==> ack.None? && err == Some(decoded.msg) && srv.queue == old(srv.queue)
    ensures decoded.DecodedItems? && Fits(d, |Present(decoded.req.items)|) ==>
      && ack == Some(Ack(|Present(decoded.req.items)|)) && err.None?
      && srv.queue == old(srv.queue) + Converted(decoded.req.items, decodeObject)
    ensures decoded.DecodedItems? && !Fits(d, |Present(decoded.req.items)|) ==>
      && ack.None? && err.Some? && d.AfterSends? && d.sends < |Present(decoded.req.items)|
      && srv.queue == old(srv.queue) + Converted(decoded.req.items, decodeObject)[..d.sends]
  {
    if decoded.DecodeFailed? {
      return None, Some(decoded.msg);
    }
    var a, e := srv.PushItems(Some(decoded.req), d, decodeObject);
    if e.Some? {
      return None, Some("context ended");
    }
    return a, None;
  }
}
