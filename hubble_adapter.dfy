/** The Hubble adapter revision: a dropped egress flow becomes an ingest item
    whose rule names the blocked destination, with a chosen set of the
    source pod's labels copied into its properties. Flows with no
    nameable destination produce no item. */
module HubbleAdapter {
  import opened Api
  import opened Decimal
  import opened Hubble

  const ReportSource: string := "Blocked Egress"
  const HandlerID: string := "clilum-blocked-egress"
  const ProtocolKey: string := "protocol"

  /** The pod labels copied into a result, under their own names. */
  const ConsideredLabels: seq<string> :=
    ["jenkins/label", "maintainer.fenaco.com/company", "maintainer.fenaco.com/team", "product.fenaco.com/name"]

  /** How a copied label is spelled among a flow's labels. */
  function LabelPrefix(l: string): (p: string)
    ensures |p| == |l| + 5 && p[..4] == "k8s:" && p[4..|l| + 4] == l && p[|l| + 4] == '='
  {
    "k8s:" + l + "="
  }

  predicate HasPrefix(s: string, p: string) {
    |p| <= |s| && s[..|p|] == p
  }

  // ---- destination ---------------------------------------------------------

  /** The blocked destination and protocol of a flow. For TCP the first
      destination name, else the destination pod as namespace/name (when it
      has a namespace), else the destination IP, each followed by ":port";
      for ICMPv4 the destination IP and "ping"; anything else names no
      destination. */
  function Destination(f: Flow): (d: (string, string))
    requires IpReadable(f)
    ensures d.1 in {"", "TCP", "ping"} && (d.1 == "" ==> d.0 == "")
    ensures d.1 == "TCP" <==>
      IsTCP(f) && (|f.destinationNames| > 0 || (f.destination.Some? && f.destination.value.namespace != "") || f.ip.Some?)
    ensures d.1 == "ping" <==> IsICMPv4(f)
  {
    if IsTCP(f) then
      var port := Port(f.l4.value.destinationPort);
      if |f.destinationNames| == 0 then
        if f.destination.Some? && f.destination.value.namespace != "" then (PodKey(f.destination.value) + ":" + port, "TCP")
        else if f.ip.Some? then (f.ip.value.destination + ":" + port, "TCP")
        else ("", "")
      else (f.destinationNames[0] + ":" + port, "TCP")
    else if IsICMPv4(f) then (f.ip.value.destination, "ping")
    else ("", "")
  }

  /** A TCP destination is a host followed by ":" and the decimal port, and
      the host is the first destination name, else the destination pod,
      else the destination IP. */
  lemma TcpDestination(f: Flow)
    requires IpReadable(f) && Destination(f).1 == "TCP"
    ensures var dest := Destination(f).0;
      var port := Port(f.l4.value.destinationPort);
      var host := dest[..|dest| - |port| - 1];
      && |port| + 1 <= |dest| && dest[|dest| - |port| - 1] == ':'
      && ParseInt(dest[|dest| - |port|..]) == Some(f.l4.value.destinationPort as int)
      && (|f.destinationNames| > 0 ==> host == f.destinationNames[0])
      && (|f.destinationNames| == 0 && f.destination.Some? && f.destination.value.namespace != "" ==>
            host == PodKey(f.destination.value))
      && (|f.destinationNames| == 0 && !(f.destination.Some? && f.destination.value.namespace != "") ==>
            host == f.ip.value.destination)
  {
    var port := Port(f.l4.value.destinationPort);
    var host :=
      if |f.destinationNames| > 0 then f.destinationNames[0]
      else if f.destination.Some? && f.destination.value.namespace != "" then PodKey(f.destination.value)
      else f.ip.value.destination;
    assert Destination(f).0 == host + ":" + port;
    HostPort(host, port);
  }

  /** host:port splits back at the last ':' before the port. */
  lemma HostPort(host: string, port: string)
    ensures var d := host + ":" + port;
      && d[..|d| - |port| - 1] == host && d[|d| - |port| - 1] == ':' && d[|d| - |port|..] == port
  {
    var d := host + ":" + port;
    assert d[..|host|] == host;
    assert d[|host| + 1..] == port;
  }

  /** Only ICMPv4 to an empty IP, TCP with no name, no namespaced pod and
      no IP, and other protocols name no destination. */
  lemma EmptyDestination(f: Flow)
    requires IpReadable(f)
    ensures Destination(f).1 == "ping" ==> Destination(f).0 == f.ip.value.destination
    ensures Destination(f).0 == "" <==>
      Destination(f).1 == "" || (Destination(f).1 == "ping" && f.ip.value.destination == "")
  {
  }

  // ---- the copied pod labels ------------------------------------------------

  /** The considered label, first in ConsideredLabels, whose spelling the pod label
      starts with. */
  function MatchedKey(podLabel: string): (k: Option<string>)
    ensures k.Some? ==> k.value in ConsideredLabels && HasPrefix(podLabel, LabelPrefix(k.value))
  {
    FirstMatch(podLabel, ConsideredLabels)
  }

  function FirstMatch(podLabel: string, ls: seq<string>): (k: Option<string>)
    ensures k.Some? ==> k.value in ls && HasPrefix(podLabel, LabelPrefix(k.value))
    ensures k.None? ==> forall l :: l in ls ==> !HasPrefix(podLabel, LabelPrefix(l))
  {
    if |ls| == 0 then None
    else if HasPrefix(podLabel, LabelPrefix(ls[0])) then Some(ls[0])
    else FirstMatch(podLabel, ls[1..])
  }

  /** No pod label is spelled as two different considered labels: the
      spellings part at the first character of the label name, or, for the
      two maintainer labels, after "maintainer.fenaco.com/". */
  lemma AtMostOneMatch(podLabel: string, l1: string, l2: string)
    requires l1 in ConsideredLabels && l2 in ConsideredLabels && l1 != l2
    ensures !(HasPrefix(podLabel, LabelPrefix(l1)) && HasPrefix(podLabel, LabelPrefix(l2)))
  {
    if HasPrefix(podLabel, LabelPrefix(l1)) && HasPrefix(podLabel, LabelPrefix(l2)) {
      var k := LabelsPart(l1, l2);
      assert false;
    }
  }

  /** Where two considered labels first differ. */
  lemma LabelsPart(l1: string, l2: string) returns (k: nat)
    requires l1 in ConsideredLabels && l2 in ConsideredLabels && l1 != l2
    ensures k < |l1| && k < |l2| && l1[k] != l2[k]
  {
    k := if l1[0] != l2[0] then 0 else 22;
  }

  /** So the label name a pod label is copied under does not depend on the
      order the considered labels are tried in. */
  lemma MatchUnique(podLabel: string, l: string)
    requires l in ConsideredLabels && HasPrefix(podLabel, LabelPrefix(l))
    ensures MatchedKey(podLabel) == Some(l)
  {
    var k := MatchedKey(podLabel);
    if k.Some? && k.value != l {
      AtMostOneMatch(podLabel, k.value, l);
    }
  }

  /** The index of the first c in s. */
  function FirstIndex(s: string, c: char): (i: nat)
    requires c in s
    ensures i < |s| && s[i] == c && c !in s[..i]
  {
    if s[0] == c then 0 else 1 + FirstIndex(s[1..], c)
  }

  /** strings.SplitN(podLabel, "=", 2)[1]: everything after the first '='. */
  function SplitValue(podLabel: string): (v: string)
    requires '=' in podLabel
    ensures |v| < |podLabel|
  {
    podLabel[FirstIndex(podLabel, '=') + 1..]
  }

  /** A copied label's value is everything after its spelling "k8s:<l>=":
      no considered label contains '=', so the first '=' ends the spelling. */
  lemma ValueAfterPrefix(podLabel: string, l: string)
    requires l in ConsideredLabels && HasPrefix(podLabel, LabelPrefix(l))
    ensures '=' in podLabel && SplitValue(podLabel) == podLabel[|LabelPrefix(l)|..]
  {
    var p := LabelPrefix(l);
    assert podLabel[..|l| + 4] == p[..|l| + 4] == "k8s:" + l;
    NoEqualsInConsidered(l);
    FirstIndexAt(podLabel, '=', |l| + 4);
  }

  /** No considered label contains '='. */
  lemma NoEqualsInConsidered(l: string)
    requires l in ConsideredLabels
    ensures '=' !in l
  {
    assert '=' !in ConsideredLabels[0];
    assert '=' !in ConsideredLabels[1];
    assert '=' !in ConsideredLabels[2];
    assert '=' !in ConsideredLabels[3];
  }

  /** The first c is at n when c is at n and nowhere before. */
  lemma FirstIndexAt(s: string, c: char, n: int)
    requires 0 <= n < |s| && s[n] == c && c !in s[..n]
    ensures c in s && FirstIndex(s, c) == n
  {
    var i := FirstIndex(s, c);
  }

  /** props after the pod labels, in order, have been copied: a label
      spelled as a considered one sets that name to its value. */
  function PodLabels(props: map<string, string>, labels: seq<string>): (m: map<string, string>)
    ensures m.Keys >= props.Keys
  {
    if |labels| == 0 then props
    else
      var m := PodLabels(props, labels[..|labels| - 1]);
      var podLabel := labels[|labels| - 1];
      match MatchedKey(podLabel)
      case None => m
      case Some(l) =>
        ValueAfterPrefix(podLabel, l);
        m[l := SplitValue(podLabel)]
  }

  /** A name no pod label is copied under keeps its entry: in particular
      every name that is not a considered label, and a considered label no
      pod label is spelled as. */
  lemma {:induction false} PodLabelsUntouched(props: map<string, string>, labels: seq<string>, k: string)
    requires k !in ConsideredLabels || forall i :: 0 <= i < |labels| ==> !HasPrefix(labels[i], LabelPrefix(k))
    ensures k in PodLabels(props, labels) <==> k in props
    ensures k in props ==> PodLabels(props, labels)[k] == props[k]
  {
    if |labels| > 0 {
      var init := labels[..|labels| - 1];
      assert forall i :: 0 <= i < |init| ==> init[i] == labels[i];
      PodLabelsUntouched(props, init, k);
      assert MatchedKey(labels[|labels| - 1]) != Some(k);
    }
  }

  /** A considered label that some pod label is spelled as holds the value
      of the last such pod label: everything after its spelling. */
  lemma {:induction false} PodLabelsLastMatch(props: map<string, string>, labels: seq<string>, i: int, k: string)
    requires 0 <= i < |labels| && k in ConsideredLabels && HasPrefix(labels[i], LabelPrefix(k))
    requires forall j :: i < j < |labels| ==> !HasPrefix(labels[j], LabelPrefix(k))
    ensures k in PodLabels(props, labels)
    ensures PodLabels(props, labels)[k] == labels[i][|LabelPrefix(k)|..]
  {
    var init := labels[..|labels| - 1];
    var last := labels[|labels| - 1];
    if i == |labels| - 1 {
      MatchUnique(last, k);
      ValueAfterPrefix(last, k);
    } else {
      assert forall j :: 0 <= j < |init| ==> init[j] == labels[j];
      PodLabelsLastMatch(props, init, i, k);
      assert MatchedKey(last) != Some(k);
    }
  }

  /** Go visits the considered labels in an arbitrary order, chosen anew
      for each pod label: any order of the four names. */
  predicate IsVisitOrder(order: seq<string>) {
    && |order| == |ConsideredLabels|
    && (forall l :: l in order ==> l in ConsideredLabels)
    && (forall l :: l in ConsideredLabels ==> l in order)
  }

  /** addPodLabels: for each pod label, try each considered label in the
      order Go's map iteration happens to visit them and copy the value on
      a match. Whatever the orders, the result is PodLabels. */
  method AddPodLabels(props: map<string, string>, labels: seq<string>, orders: seq<seq<string>>)
    returns (m: map<string, string>)
    requires |orders| == |labels| && forall i :: 0 <= i < |orders| ==> IsVisitOrder(orders[i])
    ensures m == PodLabels(props, labels)
  {
    m := props;
    var i := 0;
    while i < |labels|
      invariant 0 <= i <= |labels| && m == PodLabels(props, labels[..i])
    {
      assert labels[..i + 1][..i] == labels[..i];
      m := CopyLabel(m, labels[i], orders[i]);
      i := i + 1;
    }
    assert labels[..i] == labels;
  }

  /** props once the considered labels in done have been tried against
      podLabel. */
  ghost function Copied(props: map<string, string>, podLabel: string, done: seq<string>): map<string, string> {
    match MatchedKey(podLabel)
    case Some(k) => if k in done then props[k := podLabel[|LabelPrefix(k)|..]] else props
    case None => props
  }

  /** Trying one more considered label: it is copied exactly when it is the
      one podLabel is spelled as. */
  lemma CopyStep(props: map<string, string>, podLabel: string, order: seq<string>, j: int)
    requires IsVisitOrder(order) && 0 <= j < |order|
    ensures HasPrefix(podLabel, LabelPrefix(order[j])) ==>
      Copied(props, podLabel, order[..j])[order[j] := podLabel[|LabelPrefix(order[j])|..]] == Copied(props, podLabel, order[..j + 1])
    ensures !HasPrefix(podLabel, LabelPrefix(order[j])) ==>
      Copied(props, podLabel, order[..j]) == Copied(props, podLabel, order[..j + 1])
  {
    var l := order[j];
    assert order[..j + 1] == order[..j] + [l];
    if HasPrefix(podLabel, LabelPrefix(l)) {
      MatchUnique(podLabel, l);
    }
  }

  /** The inner loop for one pod label. */
  method CopyLabel(props: map<string, string>, podLabel: string, order: seq<string>) returns (m: map<string, string>)
    requires IsVisitOrder(order)
    ensures MatchedKey(podLabel).None? ==> m == props
    ensures MatchedKey(podLabel).Some? ==> '=' in podLabel && m == props[MatchedKey(podLabel).value := SplitValue(podLabel)]
  {
    m := props;
    var j := 0;
    while j < |order|
      invariant 0 <= j <= |order| && m == Copied(props, podLabel, order[..j])
    {
      var l := order[j];
      CopyStep(props, podLabel, order, j);
      if HasPrefix(podLabel, LabelPrefix(l)) {
        ValueAfterPrefix(podLabel, l);
        m := m[l := SplitValue(podLabel)];
      }
      j := j + 1;
    }
    assert order[..j] == order;
    if MatchedKey(podLabel).Some? {
      ValueAfterPrefix(podLabel, MatchedKey(podLabel).value);
    }
  }

  // ---- toItem ----------------------------------------------------------------

  /** The adapter's result for a flow with destination dest: a scored
      high-severity failure of the egress policy with the destination as its
      rule, the flow time as both "created" and "updated", the protocol, and
      the copied pod labels. */
  function AdapterResult(f: Flow, rfc3339: int -> string): (r: ReportResult)
    requires IpReadable(f) && f.source.Some?
    ensures r.source == ReportSource && r.policy == EgressPolicy && r.rule == Destination(f).0
    ensures r.result == Fail && r.scored && r.severity == High && r.resources == []
    ensures r.category == f.trafficDirection && r.message == f.dropReasonDesc && r.timestamp == Nanos(f)
  {
    var t := UpdatedTime(f, rfc3339);
    var (dest, protocol) := Destination(f);
    ReportResult(ReportSource, EgressPolicy, dest, [], f.dropReasonDesc, Fail, true,
      PodLabels(map[PropertyCreated := t, PropertyUpdated := t, ProtocolKey := protocol], f.source.value.labels),
      Nanos(f), f.trafficDirection, High)
  }

  /** The copied labels never displace the timestamps or the protocol, and
      "created" equals "updated": the merge engine can take both from
      here. */
  lemma AdapterResultProperties(f: Flow, rfc3339: int -> string)
    requires IpReadable(f) && f.source.Some?
    ensures var props := AdapterResult(f, rfc3339).properties;
      && PropertyCreated in props && PropertyUpdated in props && ProtocolKey in props
      && props[PropertyCreated] == props[PropertyUpdated] == UpdatedTime(f, rfc3339)
      && props[ProtocolKey] == Destination(f).1
  {
    var t := UpdatedTime(f, rfc3339);
    var base := map[PropertyCreated := t, PropertyUpdated := t, ProtocolKey := Destination(f).1];
    var labels := f.source.value.labels;
    PodLabelsUntouched(base, labels, PropertyCreated);
    PodLabelsUntouched(base, labels, PropertyUpdated);
    PodLabelsUntouched(base, labels, ProtocolKey);
  }

  /** Every other key of the adapter's result is a considered label that
      some pod label of the source matches. */
  lemma AdapterResultLabelKeys(f: Flow, rfc3339: int -> string)
    requires IpReadable(f) && f.source.Some?
    ensures var props := AdapterResult(f, rfc3339).properties;
      forall k :: k in props && k != PropertyCreated && k != PropertyUpdated && k != ProtocolKey ==>
        && k in ConsideredLabels
        && exists i :: 0 <= i < |f.source.value.labels| && HasPrefix(f.source.value.labels[i], LabelPrefix(k))
  {
    var t := UpdatedTime(f, rfc3339);
    PodLabelsNewKeys(map[PropertyCreated := t, PropertyUpdated := t, ProtocolKey := Destination(f).1], f.source.value.labels);
  }

  /** Every considered label that a pod label of the source matches is a
      key of the adapter's result, holding the value of the last pod label
      that matches it. */
  lemma AdapterResultLabelValues(f: Flow, rfc3339: int -> string)
    requires IpReadable(f) && f.source.Some?
    ensures var props := AdapterResult(f, rfc3339).properties;
      var labels := f.source.value.labels;
      forall i, k ::
        (&& 0 <= i < |labels| && k in ConsideredLabels && HasPrefix(labels[i], LabelPrefix(k))
         && (forall j :: i < j < |labels| ==> !HasPrefix(labels[j], LabelPrefix(k)))) ==>
        k in props && props[k] == labels[i][|LabelPrefix(k)|..]
  {
    var t := UpdatedTime(f, rfc3339);
    PodLabelsValues(map[PropertyCreated := t, PropertyUpdated := t, ProtocolKey := Destination(f).1], f.source.value.labels);
  }

  /** A key the label copy adds is a considered label that some pod label
      matches. */
  lemma PodLabelsNewKeys(props: map<string, string>, labels: seq<string>)
    ensures forall k :: k in PodLabels(props, labels) && k !in props ==>
      k in ConsideredLabels && exists i :: 0 <= i < |labels| && HasPrefix(labels[i], LabelPrefix(k))
  {
    forall k | k in PodLabels(props, labels) && k !in props
      ensures k in ConsideredLabels && exists i :: 0 <= i < |labels| && HasPrefix(labels[i], LabelPrefix(k))
    {
      if !(k in ConsideredLabels && exists i :: 0 <= i < |labels| && HasPrefix(labels[i], LabelPrefix(k))) {
        PodLabelsUntouched(props, labels, k);
      }
    }
  }

  /** Every considered label that a pod label matches holds the value of
      the last one that does. */
  lemma PodLabelsValues(props: map<string, string>, labels: seq<string>)
    ensures forall i, k ::
      (&& 0 <= i < |labels| && k in ConsideredLabels && HasPrefix(labels[i], LabelPrefix(k))
       && (forall j :: i < j < |labels| ==> !HasPrefix(labels[j], LabelPrefix(k)))) ==>
      k in PodLabels(props, labels) && PodLabels(props, labels)[k] == labels[i][|LabelPrefix(k)|..]
  {
    forall i, k | && 0 <= i < |labels| && k in ConsideredLabels && HasPrefix(labels[i], LabelPrefix(k))
                  && (forall j :: i < j < |labels| ==> !HasPrefix(labels[j], LabelPrefix(k)))
      ensures k in PodLabels(props, labels) && PodLabels(props, labels)[k] == labels[i][|LabelPrefix(k)|..]
    {
      PodLabelsLastMatch(props, labels, i, k);
    }
  }

  /** toItem: no item when the flow names no destination; otherwise the
      adapter's result filed under the flow's source pod for the
      clilum-blocked-egress handler, with the flow as its source. The source
      pod is only read once a destination is found. */
  method ToItem(f: Flow, rfc3339: int -> string, orders: seq<seq<string>>) returns (it: Option<Item<Flow>>)
    requires IpReadable(f) && (Destination(f).0 != "" ==> f.source.Some?)
    requires f.source.Some? ==> |orders| == |f.source.value.labels|
    requires forall i :: 0 <= i < |orders| ==> IsVisitOrder(orders[i])
    ensures it.None? <==> Destination(f).0 == ""
    ensures it.Some? ==>
      && f.source.Some? && it.value.handlerID == HandlerID && it.value.source == f
      && it.value.key == ObjectKey(f.source.value.namespace, f.source.value.podName)
      && it.value.result == AdapterResult(f, rfc3339)
  {
    var (dest, protocol) := Destination(f);
    if dest == "" {
      return None;
    }
    var t := UpdatedTime(f, rfc3339);
    var props := AddPodLabels(map[PropertyCreated := t, PropertyUpdated := t, ProtocolKey := protocol],
      f.source.value.labels, orders);
    var pr := ReportResult(ReportSource, EgressPolicy, dest, [], f.dropReasonDesc, Fail, true,
      props, Nanos(f), f.trafficDirection, High);
    it := Some(ItemFor(HandlerID, f.source.value.namespace, f.source.value.podName, pr, f));
  }

  // ---- the flow filter ---------------------------------------------------------

  /** The client's filter: a flow is skipped when it is missing, has no
      source pod or no pod name, or is neither TCP nor ICMPv4. */
  predicate IgnoreFlow(f: Option<Flow>) {
    f.None? || f.value.source.None? || f.value.source.value.podName == "" || f.value.l4.None? ||
    (!IsTCP(f.value) && !IsICMPv4(f.value))
  }

  /** The filter passes exactly the flows from a named pod that are TCP or
      ICMPv4; so every passed flow can reach its source pod, and every flow
      from a named pod that has a destination is passed. */
  lemma FilterKeepsNameableFlows(f: Flow)
    requires IpReadable(f)
    ensures !IgnoreFlow(Some(f)) <==>
      f.source.Some? && f.source.value.podName != "" && (IsTCP(f) || IsICMPv4(f))
    ensures f.source.Some? && f.source.value.podName != "" && Destination(f).0 != "" ==> !IgnoreFlow(Some(f))
  {
  }
}
