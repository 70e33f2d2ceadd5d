/** The Cilium Hubble flow normaliser in its legacy form: the mapper that
    writes a dropped egress flow straight into a report with the
    replace-only rule, and the first item builder on the shared types. The
    flow record and RFC 3339 formatting of its time (a parameter) are
    shared with the adapter revision. */
module Hubble {
  import opened Api
  import opened Decimal
  import opened Merge
  import opened Report

  const ReportSource: string := "Cilium Hubble"
  const EgressPolicy: string := "Egress Network Policy"
  const UpdatedTimeKey: string := "UpdatedTime"

  /** A protobuf timestamp: whole seconds and the nanosecond remainder. */
  datatype Timestamp = Timestamp(seconds: int, nanos: int32)

  /** One side of a flow: a pod, with its labels in "k8s:key=value" form. */
  datatype Endpoint = Endpoint(namespace: string, podName: string, labels: seq<string>)

  datatype IpInfo = IpInfo(source: string, destination: string)

  /** The layer-4 header; every protocol other than TCP and ICMPv4 is
      OtherProtocol. */
  datatype Layer4 =
    | TCP(destinationPort: uint32)
    | ICMPv4(icmpType: uint32, code: uint32)
    | OtherProtocol

  /** The fields of a Hubble flow the normalisers read. Every sub-message
      may be absent (a nil pointer). Direction and drop reason are kept as
      the names their enums print. */
  datatype Flow = Flow(
    time: Option<Timestamp>,
    trafficDirection: string,
    dropReasonDesc: string,
    source: Option<Endpoint>,
    destination: Option<Endpoint>,
    destinationNames: seq<string>,
    ip: Option<IpInfo>,
    l4: Option<Layer4>)

  predicate IsTCP(f: Flow) {
    f.l4.Some? && f.l4.value.TCP?
  }

  predicate IsICMPv4(f: Flow) {
    f.l4.Some? && f.l4.value.ICMPv4?
  }

  /** The normalisers read f.IP.Destination of an ICMPv4 flow without a nil
      check: a flow without it is not one they can handle. */
  predicate IpReadable(f: Flow) {
    IsICMPv4(f) ==> f.ip.Some?
  }

  /** The nanosecond part of the flow time; an absent time reads as 0. */
  function Nanos(f: Flow): (n: int32)
    ensures f.time.None? ==> n == 0
    ensures f.time.Some? ==> n == f.time.value.nanos
  {
    if f.time.Some? then f.time.value.nanos else 0
  }

  /** The flow time in RFC 3339; an absent time is the Unix epoch. */
  function UpdatedTime(f: Flow, rfc3339: int -> string): (t: string)
    ensures f.time.None? ==> t == rfc3339(0)
    ensures f.time.Some? ==> t == rfc3339(f.time.value.seconds)
  {
    rfc3339(if f.time.Some? then f.time.value.seconds else 0)
  }

  /** "%d" of a port or ICMP field. */
  function Port(p: uint32): (s: string)
    ensures |s| >= 1 && ParseInt(s) == Some(p as int)
  {
    ParseFormat(p);
    FormatInt(p)
  }

  /** The ICMPv4 property key and value. */
  function PingKey(ip: IpInfo): (k: string)
    ensures |k| == 5 + |ip.destination| && k[..5] == "ping " && k[5..] == ip.destination
  {
    "ping " + ip.destination
  }

  function PingValue(icmpType: uint32, code: uint32): (v: string)
    ensures v == "type: " + Port(icmpType) + " / code: " + Port(code)
  {
    "type: " + FormatInt(icmpType) + " / code: " + FormatInt(code)
  }

  /** props with every name of names set to v, in order (the last write of
      a repeated name wins, and they all write v). */
  function WithAll(props: map<string, string>, names: seq<string>, v: string): (m: map<string, string>)
    ensures m.Keys == props.Keys + (set n | n in names)
    ensures forall k :: k in m ==> m[k] == if k in names then v else props[k]
  {
    if |names| == 0 then props else WithAll(props, names[..|names| - 1], v)[names[|names| - 1] := v]
  }

  /** The loop that writes one port under every destination name. */
  method SetAll(props: map<string, string>, names: seq<string>, v: string) returns (m: map<string, string>)
    ensures m == WithAll(props, names, v)
  {
    m := props;
    var i := 0;
    while i < |names|
      invariant 0 <= i <= |names| && m == WithAll(props, names[..i], v)
    {
      assert names[..i + 1][..i] == names[..i];
      m := m[names[i] := v];
      i := i + 1;
    }
    assert names[..i] == names;
  }

  /** The result both legacy builders start from: a scored high-severity
      failure of the egress policy, reported by Cilium Hubble, with the
      flow time as its only property. */
  function BaseResult(f: Flow, rfc3339: int -> string): (r: ReportResult)
    ensures r.source == ReportSource && r.policy == EgressPolicy && r.rule == "" && r.resources == []
    ensures r.result == Fail && r.scored && r.severity == High
    ensures r.category == f.trafficDirection && r.message == f.dropReasonDesc && r.timestamp == Nanos(f)
    ensures r.properties == map[UpdatedTimeKey := UpdatedTime(f, rfc3339)]
  {
    ReportResult(ReportSource, EgressPolicy, "", [], f.dropReasonDesc, Fail, true,
      map[UpdatedTimeKey := UpdatedTime(f, rfc3339)], Nanos(f), f.trafficDirection, High)
  }

  /** The mapper's properties: for TCP the port under every destination
      name, for ICMPv4 the type and code under "ping <ip>". */
  function MapperProperties(f: Flow, rfc3339: int -> string): map<string, string>
    requires IpReadable(f)
  {
    var base := BaseResult(f, rfc3339).properties;
    if IsTCP(f) then WithAll(base, f.destinationNames, Port(f.l4.value.destinationPort))
    else if IsICMPv4(f) then base[PingKey(f.ip.value) := PingValue(f.l4.value.icmpType, f.l4.value.code)]
    else base
  }

  function MapperResult(f: Flow, rfc3339: int -> string): ReportResult
    requires IpReadable(f)
  {
    BaseResult(f, rfc3339).(properties := MapperProperties(f, rfc3339))
  }

  /** What the mapper records: the flow time under "UpdatedTime", except
      that a TCP destination named "UpdatedTime" overwrites it with the port;
      for TCP exactly the destination names besides, each with the port;
      for ICMPv4 exactly "ping <ip>" besides, holding the ICMP type and
      code; for any other flow nothing
      else. */
  lemma MapperPropertiesMeaning(f: Flow, rfc3339: int -> string)
    requires IpReadable(f)
    ensures UpdatedTimeKey in MapperProperties(f, rfc3339)
    ensures MapperProperties(f, rfc3339)[UpdatedTimeKey] == UpdatedTime(f, rfc3339) <==>
      !(IsTCP(f) && UpdatedTimeKey in f.destinationNames) || Port(f.l4.value.destinationPort) == UpdatedTime(f, rfc3339)
    ensures IsTCP(f) ==> MapperProperties(f, rfc3339).Keys == {UpdatedTimeKey} + (set n | n in f.destinationNames)
    ensures IsTCP(f) ==> forall n :: n in f.destinationNames ==> MapperProperties(f, rfc3339)[n] == Port(f.l4.value.destinationPort)
    ensures IsICMPv4(f) ==> MapperProperties(f, rfc3339).Keys == {UpdatedTimeKey, PingKey(f.ip.value)}
    ensures IsICMPv4(f) ==>
      MapperProperties(f, rfc3339)[PingKey(f.ip.value)] == PingValue(f.l4.value.icmpType, f.l4.value.code)
    ensures !IsTCP(f) && !IsICMPv4(f) ==> MapperProperties(f, rfc3339).Keys == {UpdatedTimeKey}
  {
    if IsICMPv4(f) {
      assert PingKey(f.ip.value) != UpdatedTimeKey by {
        assert PingKey(f.ip.value)[..5] == "ping ";
        assert UpdatedTimeKey[..5] == "Updat";
      }
    }
  }

  /** The properties loop of the mapper and the first item builder. */
  method FlowProperties(f: Flow, rfc3339: int -> string, podKey: bool) returns (props: map<string, string>)
    requires IpReadable(f)
    ensures !podKey ==> props == MapperProperties(f, rfc3339)
    ensures podKey ==> props == ItemProperties(f, rfc3339)
  {
    props := BaseResult(f, rfc3339).properties;
    if f.l4.Some? {
      match f.l4.value
      case TCP(port) =>
        if podKey && |f.destinationNames| == 0 && f.destination.Some? {
          props := props[PodKey(f.destination.value) := FormatInt(port)];
        } else {
          props := SetAll(props, f.destinationNames, FormatInt(port));
        }
      case ICMPv4(t, c) =>
        props := props[PingKey(f.ip.value) := PingValue(t, c)];
      case OtherProtocol =>
    }
  }

  /** The legacy addResultFor: the flow's result replaces every entry of the
      report with source Cilium Hubble and the egress policy, or is
      appended when there is none. The summary is not touched. */
  method AddResultFor(pol: PolicyReport, f: Flow, rfc3339: int -> string)
    requires IpReadable(f)
    modifies pol`results
    ensures pol.results == ReplaceByPolicy(old(pol.results), MapperResult(f, rfc3339))
    ensures pol.summary == old(pol.summary)
  {
    var props := FlowProperties(f, rfc3339, false);
    var pr := BaseResult(f, rfc3339).(properties := props);
    pol.ReplaceResult(pr);
  }

  /** All Hubble flows share one policy and an empty rule, so the legacy
      report keeps one Hubble entry, the latest flow's, whatever came
      before. */
  lemma LatestFlowWins(results: seq<ReportResult>, f: Flow, g: Flow, rfc3339: int -> string)
    requires IpReadable(f) && IpReadable(g)
    ensures ReplaceByPolicy(ReplaceByPolicy(results, MapperResult(f, rfc3339)), MapperResult(g, rfc3339)) ==
      ReplaceByPolicy(results, MapperResult(g, rfc3339))
  {
    ReplaceByPolicyLastWins(results, MapperResult(f, rfc3339), MapperResult(g, rfc3339));
  }

  /** The key the item builder uses for a TCP flow with no destination
      names: the destination pod as namespace/name. */
  function PodKey(e: Endpoint): (k: string)
    ensures |k| == |e.namespace| + 1 + |e.podName| && k[|e.namespace|] == '/'
    ensures k[..|e.namespace|] == e.namespace && k[|e.namespace| + 1..] == e.podName
  {
    e.namespace + "/" + e.podName
  }

  /** The first item builder's properties: as the mapper's, except that a
      TCP flow with no destination names and a destination pod records the
      port under the pod's namespace/name. */
  function ItemProperties(f: Flow, rfc3339: int -> string): map<string, string>
    requires IpReadable(f)
  {
    if IsTCP(f) && |f.destinationNames| == 0 && f.destination.Some? then
      BaseResult(f, rfc3339).properties[PodKey(f.destination.value) := Port(f.l4.value.destinationPort)]
    else MapperProperties(f, rfc3339)
  }

  /** The item builder differs from the mapper only where the mapper
      records nothing beyond the time: a TCP flow to a pod with no
      destination names now also says which pod and port. */
  lemma ItemPropertiesExtendMapper(f: Flow, rfc3339: int -> string)
    requires IpReadable(f)
    ensures !(IsTCP(f) && |f.destinationNames| == 0 && f.destination.Some?) ==>
      ItemProperties(f, rfc3339) == MapperProperties(f, rfc3339)
    ensures IsTCP(f) && |f.destinationNames| == 0 && f.destination.Some? ==>
      MapperProperties(f, rfc3339).Keys == {UpdatedTimeKey} &&
      ItemProperties(f, rfc3339).Keys == {UpdatedTimeKey, PodKey(f.destination.value)} &&
      ItemProperties(f, rfc3339)[PodKey(f.destination.value)] == Port(f.l4.value.destinationPort)
  {
    if IsTCP(f) && |f.destinationNames| == 0 && f.destination.Some? {
      assert (set n | n in f.destinationNames) == {};
    }
  }

  /** The first item builder (pkg/hubble toItem): the mapper's result with
      the extra pod key, filed under the flow's source pod with no handler,
      the flow itself as its source. */
  method ToItem(f: Flow, rfc3339: int -> string) returns (it: Item<Flow>)
    requires f.source.Some? && IpReadable(f)
    ensures it.key == ObjectKey(f.source.value.namespace, f.source.value.podName) && it.handlerID == ""
    ensures it.source == f
    ensures it.result == BaseResult(f, rfc3339).(properties := ItemProperties(f, rfc3339))
  {
    var props := FlowProperties(f, rfc3339, true);
    it := ItemWithoutHandler(f.source.value.namespace, f.source.value.podName,
      BaseResult(f, rfc3339).(properties := props), f);
  }

  // ---- The legacy client's flow filter --------------------------------------

  /** The legacy client's filter, as written: it reports "ignore" for a
      present flow that is TCP or ICMPv4, and its caller handles the flows
      the filter does not ignore. */
  predicate IgnoreFlowAsWritten(f: Option<Flow>) {
    f.Some? && f.value.l4.Some? && (IsTCP(f.value) || IsICMPv4(f.value))
  }

  /** The filter's polarity is inverted: every TCP and ICMPv4 flow is
      dropped, a missing flow is passed on (and then dereferenced), and the
      flows that do pass make the mapper record nothing but the time. */
  lemma LegacyFilterInverted(f: Flow, rfc3339: int -> string)
    ensures IsTCP(f) || IsICMPv4(f) ==> IgnoreFlowAsWritten(Some(f))
    ensures !IgnoreFlowAsWritten(None)
    ensures !IgnoreFlowAsWritten(Some(f)) ==> IpReadable(f) && MapperProperties(f, rfc3339).Keys == {UpdatedTimeKey}
  {
    if !IgnoreFlowAsWritten(Some(f)) {
      MapperPropertiesMeaning(f, rfc3339);
    }
  }
}
