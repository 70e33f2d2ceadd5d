/** The plain-HTTP ingest endpoint, POST /v1/items: the checks a request
    passes before anything is decoded, the array and single-object paths,
    the enqueue loop with its accepted counter, and the hand-written itoa
    that prints the counter. JSON decoding is a parameter; the channel is a
    queue; the request context is a Deadline. */
module IngestHttp {
  import opened Api
  import opened Decimal
  import opened IngestService

  const StatusAccepted: int := 202
  const StatusBadRequest: int := 400
  const StatusMethodNotAllowed: int := 405
  const StatusUnsupportedMediaType: int := 415
  const StatusServiceUnavailable: int := 503

  /** At most this many body bytes are read (10 MiB); the rest is ignored. */
  const BodyLimit: nat := 10 * 1024 * 1024

  /** The parts of a request the handler looks at. An absent Content-Type
      header reads as "". `readFails` is an I/O error while reading the
      body. */
  datatype Request = Request(httpMethod: string, contentType: string, body: seq<byte>, readFails: bool)

  datatype Response = Response(status: int, body: string)

  /** What encoding/json makes of the bytes: a value or an error message. */
  datatype Decoding<T> = Decoded(value: T) | DecodeError(msg: string)

  /** http.Error: the status and the message on a line of its own. */
  function ErrorResponse(status: int, msg: string): (r: Response)
    ensures r.status == status && |r.body| == |msg| + 1 && r.body[..|msg|] == msg && r.body[|msg|] == '\n'
  {
    Response(status, msg + "\n")
  }

  /** strings.Contains. */
  predicate Contains(s: string, sub: string)
    decreases |s|
  {
    |sub| <= |s| && (s[..|sub|] == sub || (|s| > 0 && Contains(s[1..], sub)))
  }

  /** sub occurs in s at position i. */
  predicate OccursAt(s: string, sub: string, i: int) {
    0 <= i && i + |sub| <= |s| && s[i..i + |sub|] == sub
  }

  /** Contains holds exactly when sub occurs at some position of s. */
  lemma {:induction false} ContainsAt(s: string, sub: string)
    ensures Contains(s, sub) <==> exists i :: OccursAt(s, sub, i)
    decreases |s|
  {
    if |sub| <= |s| && s[..|sub|] == sub {
      assert OccursAt(s, sub, 0);
    } else if |sub| <= |s| && |s| > 0 {
      ContainsAt(s[1..], sub);
      if exists i :: OccursAt(s[1..], sub, i) {
        var i :| OccursAt(s[1..], sub, i);
        assert s[i + 1..i + 1 + |sub|] == s[1..][i..i + |sub|];
        assert OccursAt(s, sub, i + 1);
      }
      if exists i :: OccursAt(s, sub, i) {
        var i :| OccursAt(s, sub, i);
        assert i != 0;
        assert s[1..][i - 1..i - 1 + |sub|] == s[i..i + |sub|];
        assert OccursAt(s[1..], sub, i - 1);
      }
    } else {
      assert forall i :: !OccursAt(s, sub, i);
    }
  }

  /** The content types the endpoint accepts: none given, or one that
      mentions application/json. */
  predicate ContentTypeAccepted(ct: string) {
    ct == "" || Contains(ct, "application/json")
  }

  /** The ASCII white space strings.TrimSpace removes: tab, newline,
      vertical tab, form feed, carriage return and space. */
  predicate IsSpace(b: byte) {
    9 <= b <= 13 || b == 32
  }

  /** The number of white-space bytes s starts with. */
  function LeadingSpace(s: seq<byte>): (n: nat)
    ensures n <= |s| && (forall k :: 0 <= k < n ==> IsSpace(s[k])) && (n < |s| ==> !IsSpace(s[n]))
    decreases |s|
  {
    if s == [] || !IsSpace(s[0]) then 0 else 1 + LeadingSpace(s[1..])
  }

  /** The number of white-space bytes s ends with. */
  function TrailingSpace(s: seq<byte>): (n: nat)
    ensures n <= |s| && (forall k :: |s| - n <= k < |s| ==> IsSpace(s[k])) && (n < |s| ==> !IsSpace(s[|s| - n - 1]))
    decreases |s|
  {
    if s == [] || !IsSpace(s[|s| - 1]) then 0 else 1 + TrailingSpace(s[..|s| - 1])
  }

  /** strings.TrimSpace on ASCII: s without its leading and trailing white
      space. Nothing but white space is removed, the result neither starts
      nor ends with white space, and it is empty exactly when s is all
      white space. */
  function TrimSpace(s: seq<byte>): (t: seq<byte>)
    ensures LeadingSpace(s) + |t| <= |s| && t == s[LeadingSpace(s)..LeadingSpace(s) + |t|]
    ensures forall k :: LeadingSpace(s) + |t| <= k < |s| ==> IsSpace(s[k])
    ensures t != [] ==> !IsSpace(t[0]) && !IsSpace(t[|t| - 1])
    ensures t == [] <==> forall k :: 0 <= k < |s| ==> IsSpace(s[k])
  {
    var i := LeadingSpace(s);
    var u := s[i..];
    var t := u[..|u| - TrailingSpace(u)];
    assert i < |s| ==> u[0] == s[i] && (t != [] ==> t[0] == s[i]);
    t
  }

  /** io.ReadAll of an io.LimitReader: the first BodyLimit bytes. */
  function ReadBody(body: seq<byte>): (b: seq<byte>)
    ensures |b| <= |body| && |b| <= BodyLimit && b == body[..|b|]
    ensures |body| <= BodyLimit ==> b == body
    ensures |body| > BodyLimit ==> |b| == BodyLimit
  {
    if |body| <= BodyLimit then body else body[..BodyLimit]
  }

  /** The payload the handler decodes: the read bytes, trimmed. */
  function Payload(req: Request): seq<byte> {
    TrimSpace(ReadBody(req.body))
  }

  const OpenBracket: byte := 0x5b

  /** Where a request goes once its checks are done: refused with a status
      and message, or decoded as an array of item pointers, or as one item. */
  datatype Verdict<S> =
    | Refuse(status: int, message: string)
    | Batch(items: seq<Option<Item<S>>>)
    | Single(item: Item<S>)

  /** The handler's checks, in order: the method, the content type, the
      body read, the trimmed body, then the array or object decoding.
      Each refusal names the first check that fails. */
  function Admit<S>(req: Request,
                    decodeArray: seq<byte> -> Decoding<seq<Option<Item<S>>>>,
                    decodeItem: seq<byte> -> Decoding<Item<S>>): (v: Verdict<S>)
    ensures v == Refuse(StatusMethodNotAllowed, "method not allowed") <==> req.httpMethod != "POST"
    ensures v == Refuse(StatusUnsupportedMediaType, "unsupported content type") <==>
      req.httpMethod == "POST" && !ContentTypeAccepted(req.contentType)
    ensures v.Refuse? ==> v.status in {StatusBadRequest, StatusMethodNotAllowed, StatusUnsupportedMediaType}
    ensures v.Refuse? && v.status == StatusBadRequest <==>
      && req.httpMethod == "POST" && ContentTypeAccepted(req.contentType)
      && (|| req.readFails || Payload(req) == []
          || (Payload(req)[0] == OpenBracket && decodeArray(Payload(req)).DecodeError?)
          || (Payload(req)[0] != OpenBracket && decodeItem(Payload(req)).DecodeError?))
    ensures v.Batch? <==>
      && req.httpMethod == "POST" && ContentTypeAccepted(req.contentType) && !req.readFails
      && Payload(req) != [] && Payload(req)[0] == OpenBracket && decodeArray(Payload(req)).Decoded?
    ensures v.Batch? ==> v.items == decodeArray(Payload(req)).value
    ensures v.Single? <==>
      && req.httpMethod == "POST" && ContentTypeAccepted(req.contentType) && !req.readFails
      && Payload(req) != [] && Payload(req)[0] != OpenBracket && decodeItem(Payload(req)).Decoded?
    ensures v.Single? ==> v.item == decodeItem(Payload(req)).value
  {
    if req.httpMethod != "POST" then Refuse(StatusMethodNotAllowed, "method not allowed")
    else if !ContentTypeAccepted(req.contentType) then Refuse(StatusUnsupportedMediaType, "unsupported content type")
    else if req.readFails then Refuse(StatusBadRequest, "failed to read body")
    else
      var trimmed := Payload(req);
      if |trimmed| == 0 then Refuse(StatusBadRequest, "empty body")
      else if trimmed[0] == OpenBracket then
        match decodeArray(trimmed)
        case DecodeError(e) => Refuse(StatusBadRequest, "invalid JSON array: " + e)
        case Decoded(items) => Batch(items)
      else
        match decodeItem(trimmed)
        case DecodeError(e) => Refuse(StatusBadRequest, "invalid JSON object: " + e)
        case Decoded(item) => Single(item)
  }

  /** The accepted-count reply. */
  function AcceptedBody(count: int): string {
    "{\"accepted\":" + FormatInt(count) + "}"
  }

  /** The hand-written itoa: digits written into a 20-byte buffer from the
      end, then a '-' for a negative number. Its result agrees with
      strconv.Itoa for every 64-bit int except the smallest, whose negation
      wraps back to itself so that no digit is written and only "-" comes
      out. */
  method Itoa(n: int) returns (s: string)
    requires IsInt64(n)
    ensures s == if n == MinInt64 then "-" else FormatInt(n)
    ensures |s| <= 20
  {
    if n == 0 {
      return "0";
    }
    var neg := false;
    var m := n;
    if m < 0 {
      neg := true;
      m := if m == MinInt64 then MinInt64 else -m;  // two's-complement negation
    }
    var b := new char[20](_ => '0');
    var i := WriteDigits(b, m);
    if neg {
      PutBefore(b, i, '-');
      i := i - 1;
    }
    s := b[i..];
  }

  /** itoa's digit loop: the digits of a positive m, last first, into the
      tail of the buffer; nothing for m <= 0. */
  method WriteDigits(b: array<char>, m0: int) returns (i: int)
    requires b.Length == 20 && m0 <= MaxInt64 + 1
    modifies b
    ensures 0 <= i <= 20
    ensures m0 <= 0 ==> i == 20
    ensures m0 > 0 ==> 1 <= i && b[i..] == Digits(m0)
  {
    i := 20;
    var m := m0;
    if m0 > 0 {
      Int64Digits(m0);
    }
    while m > 0
      invariant 0 <= i <= 20
      invariant m0 <= 0 ==> m == m0 && i == 20
      invariant m0 > 0 ==> 0 <= m && Digits(m0) == Pending(m) + b[i..] && 20 - i + |Pending(m)| == |Digits(m0)|
      decreases m
    {
      WriteStep(m0, m, b[i..]);
      PutBefore(b, i, DigitChar(m % 10));
      i := i - 1;
      m := m / 10;
    }
  }

  /** Writing the last pending digit in front of the filled tail keeps the
      whole digit string split between what is pending and what is
      written. */
  lemma WriteStep(m0: nat, m: nat, tail: string)
    requires m > 0 && Digits(m0) == Pending(m) + tail
    ensures Digits(m0) == Pending(m / 10) + ([DigitChar(m % 10)] + tail)
    ensures |Pending(m / 10)| + 1 == |Pending(m)|
  {
    PendingStep(m);
  }

  /** The digits of m still to be written: none once m is 0. */
  ghost function Pending(m: nat): string {
    if m == 0 then [] else Digits(m)
  }

  /** Writing the last pending digit leaves those of m / 10. */
  lemma PendingStep(m: nat)
    requires m > 0
    ensures Pending(m) == Pending(m / 10) + [DigitChar(m % 10)]
  {
    DigitsStep(m);
  }

  /** `i--; b[i] = c` on the buffer: the filled tail grows by c at its
      front. */
  method PutBefore(b: array<char>, i: int, c: char)
    requires 0 < i <= b.Length
    modifies b
    ensures b[i - 1..] == [c] + old(b[i..])
  {
    b[i - 1] := c;
    assert b[i - 1..] == [c] + b[i..];
  }

  /** One more element of a slice of pointers: a nil one adds nothing, a
      non-nil one is the next non-nil element of the whole slice. */
  lemma PresentStep<T>(xs: seq<Option<T>>, k: int)
    requires 0 <= k < |xs|
    ensures Present(xs[..k + 1]) == Present(xs[..k]) + (if xs[k].Some? then [xs[k].value] else [])
    ensures |Present(xs[..k + 1])| <= |Present(xs)|
    ensures Present(xs)[..|Present(xs[..k + 1])|] == Present(xs[..k + 1])
  {
    assert xs[..k + 1] == xs[..k] + [xs[k]];
    PresentAppend(xs[..k], xs[k]);
    assert xs == xs[..k + 1] + xs[k + 1..];
    PresentConcat(xs[..k + 1], xs[k + 1..]);
  }

  /** The channel the endpoint feeds. */
  class HttpIngest<S> {
    var queue: seq<Item<S>>

    constructor ()
      ensures queue == []
    {
      queue := [];
    }

    /** The array path's loop: skip nil items, send the others in order
        and count them; stop when the context ends. */
    method EnqueueAll(items: seq<Option<Item<S>>>, d: Deadline) returns (count: nat, cancelled: bool)
      modifies this`queue
      ensures cancelled <==> !Fits(d, |Present(items)|)
      ensures !cancelled ==> count == |Present(items)| && queue == old(queue) + Present(items)
      ensures cancelled ==> d.AfterSends? && d.sends < |Present(items)| && queue == old(queue) + Present(items)[..d.sends]
    {
      count := 0;
      var idx := 0;
      assert items[..0] == [];
      while idx < |items|
        invariant 0 <= idx <= |items|
        invariant count == |Present(items[..idx])| && Fits(d, count)
        invariant queue == old(queue) + Present(items[..idx])
      {
        PresentStep(items, idx);
        if items[idx].Some? {
          if !Fits(d, count + 1) {
            return count, true;
          }
          queue := queue + [items[idx].value];
          count := count + 1;
        }
        idx := idx + 1;
      }
      assert items[..idx] == items;
      cancelled := false;
    }

    /** The /v1/items handler. A refused request gets its status and
        message and enqueues nothing. An array enqueues its non-nil items
        in order and answers 202 with their number; a single object is
        enqueued and answered 202 with 1. When the context ends before an
        item can be sent, the answer is 503 and what was already sent stays
        queued. A JSON array never has more elements than bytes, so the
        count fits the 64-bit itoa. */
    method Handle(req: Request, d: Deadline,
                  decodeArray: seq<byte> -> Decoding<seq<Option<Item<S>>>>,
                  decodeItem: seq<byte> -> Decoding<Item<S>>)
      returns (resp: Response)
      requires forall b :: decodeArray(b).Decoded? ==> |decodeArray(b).value| <= |b|
      modifies this`queue
      ensures Admit(req, decodeArray, decodeItem).Refuse? ==>
        && resp == ErrorResponse(Admit(req, decodeArray, decodeItem).status, Admit(req, decodeArray, decodeItem).message)
        && queue == old(queue)
      ensures Admit(req, decodeArray, decodeItem).Batch? ==>
        var present := Present(Admit(req, decodeArray, decodeItem).items);
        && (Fits(d, |present|) ==> resp == Response(StatusAccepted, AcceptedBody(|present|)) && queue == old(queue) + present)
        && (!Fits(d, |present|) ==>
             && resp == ErrorResponse(StatusServiceUnavailable, "server shutting down")
             && d.sends < |present| && queue == old(queue) + present[..d.sends])
      ensures Admit(req, decodeArray, decodeItem).Single? ==>
        && (Fits(d, 1) ==>
             resp == Response(StatusAccepted, AcceptedBody(1)) && queue == old(queue) + [Admit(req, decodeArray, decodeItem).item])
        && (!Fits(d, 1) ==> resp == ErrorResponse(StatusServiceUnavailable, "server shutting down") && queue == old(queue))
    {
      var v := Admit(req, decodeArray, decodeItem);
      match v {
        case Refuse(status, message) =>
          return ErrorResponse(status, message);
        case Single(item) =>
          if !Fits(d, 1) {
            return ErrorResponse(StatusServiceUnavailable, "server shutting down");
          }
          queue := queue + [item];
          return Response(StatusAccepted, "{\"accepted\":1}");
        case Batch(items) =>
          var count, cancelled := EnqueueAll(items, d);
          if cancelled {
            return ErrorResponse(StatusServiceUnavailable, "server shutting down");
          }
          assert count <= |items| <= |Payload(req)| <= BodyLimit;
          var digits := Itoa(count);
          return Response(StatusAccepted, "{\"accepted\":" + digits + "}");
      }
    }
  }
}
