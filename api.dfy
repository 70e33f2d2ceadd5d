/** The normalised event model shared by every component: the report result
    (the policy-report schema's result record), the item that carries one
    result for one subject, and the property names the merge engine knows. */
module Api {

  /** Go's nil pointer, nil interface and "missing" are all modelled as None. */
  datatype Option<+T> = None | Some(value: T)

  type byte = x: int | 0 <= x < 0x100
  type int32 = x: int | -0x8000_0000 <= x < 0x8000_0000
  type uint32 = x: int | 0 <= x < 0x1_0000_0000

  const PropertyCreated: string := "created"
  const PropertyUpdated: string := "updated"

  /** The outcome of a policy check. ResultUnset is the empty string that the
      schema's omitempty tag allows. */
  datatype PolicyResult = Pass | Fail | Warn | Error | Skip | ResultUnset

  /** How severe a finding is. SeverityUnset is the empty string. */
  datatype Severity = Critical | High | Medium | Low | Info | SeverityUnset

  /** A decoded JSON value, the shape behind Go's map[string]any. */
  datatype Json =
    | JNull
    | JBool(b: bool)
    | JNumber(literal: string)
    | JString(s: string)
    | JArray(elems: seq<Json>)
    | JObject(fields: map<string, Json>)

  /** The subject an observation is about. */
  datatype ObjectKey = ObjectKey(namespace: string, name: string)

  /** One normalised finding. (source, policy, rule) is its slot key. */
  datatype ReportResult = ReportResult(
    source: string,
    policy: string,
    rule: string,
    resources: seq<ObjectKey>,
    message: string,
    result: PolicyResult,
    scored: bool,
    properties: map<string, string>,
    timestamp: int32,
    category: string,
    severity: Severity)

  /** One observation: who it is about, who produced it, the finding and an
      uninterpreted raw payload of type S. */
  datatype Item<S> = Item(key: ObjectKey, handlerID: string, result: ReportResult, source: S)

  /** Go's zero-value map lookup: a missing key reads as the empty string. */
  function Lookup(m: map<string, string>, k: string): (v: string)
    ensures k !in m ==> v == ""
    ensures k in m ==> v == m[k]
  {
    if k in m then m[k] else ""
  }

  /** The slot key of a result. */
  predicate SameSlot(a: ReportResult, b: ReportResult) {
    a.source == b.source && a.policy == b.policy && a.rule == b.rule
  }

  /** The non-nil elements of a slice of pointers, in order. */
  function Present<T>(xs: seq<Option<T>>): (ys: seq<T>)
    ensures |ys| <= |xs|
    decreases |xs|
  {
    if xs == [] then []
    else
      var init := Present(xs[..|xs| - 1]);
      match xs[|xs| - 1]
      case None => init
      case Some(x) => init + [x]
  }

  /** Counts the non-nil elements. */
  function CountPresent<T>(xs: seq<Option<T>>): nat
    decreases |xs|
  {
    if xs == [] then 0
    else CountPresent(xs[..|xs| - 1]) + (if xs[|xs| - 1].Some? then 1 else 0)
  }

  lemma {:induction false} PresentCount<T>(xs: seq<Option<T>>)
    ensures |Present(xs)| == CountPresent(xs)
    decreases |xs|
  {
    if xs != [] {
      PresentCount(xs[..|xs| - 1]);
    }
  }

  /** Every non-nil element is kept and nothing else appears. */
  lemma {:induction false} PresentMembers<T>(xs: seq<Option<T>>, x: T)
    ensures x in Present(xs) <==> Some(x) in xs
    decreases |xs|
  {
    if xs != [] {
      var init := xs[..|xs| - 1];
      PresentMembers(init, x);
      assert xs == init + [xs[|xs| - 1]];
    }
  }

  lemma PresentAppend<T>(xs: seq<Option<T>>, x: Option<T>)
    ensures Present(xs + [x]) == Present(xs) + (if x.Some? then [x.value] else [])
  {
    assert (xs + [x])[..|xs|] == xs;
  }

  lemma {:induction false} PresentConcat<T>(xs: seq<Option<T>>, ys: seq<Option<T>>)
    ensures Present(xs + ys) == Present(xs) + Present(ys)
    decreases |ys|
  {
    if ys == [] {
      assert xs + ys == xs;
    } else {
      var ys' := ys[..|ys| - 1];
      var y := ys[|ys| - 1];
      assert ys == ys' + [y];
      assert xs + ys == (xs + ys') + [y];
      PresentAppend(xs + ys', y);
      PresentAppend(ys', y);
      PresentConcat(xs, ys');
    }
  }

  /** The constructor used by every adapter and by the ingest endpoints
      (ItemFor). */
  function ItemFor<S>(handlerID: string, namespace: string, name: string, result: ReportResult, source: S): (it: Item<S>)
    ensures it.key.namespace == namespace && it.key.name == name
    ensures it.handlerID == handlerID && it.result == result && it.source == source
  {
    Item(ObjectKey(namespace, name), handlerID, result, source)
  }

  /** The older constructor without a handler id (pkg/report/types.go); the
      handler id is left empty. */
  function ItemWithoutHandler<S>(namespace: string, name: string, result: ReportResult, source: S): (it: Item<S>)
    ensures it == ItemFor("", namespace, name, result, source)
  {
    Item(ObjectKey(namespace, name), "", result, source)
  }

  lemma PropertyKeysDistinct()
    ensures PropertyCreated != PropertyUpdated
    ensures |PropertyCreated| == 7 && |PropertyUpdated| == 7
  {
  }
}
