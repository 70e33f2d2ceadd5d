/** The aggregate side of the merge engine: the per-pod policy report object,
    whose addResult rewrites its result list in place, the store of reports
    the handler reads and writes, and the discovery check for the report
    kind. */
module Report {
  import opened Api
  import opened Merge

  const PolicyReportKind: string := "PolicyReport"
  /** prv1alpha2.GroupVersion.String() */
  const PolicyReportAPIVersion: string := "wgpolicyk8s.io/v1alpha2"
  const ReportNamePrefix: string := "prp-"
  /** The number of attempts retry.DefaultBackoff allows. */
  const DefaultBackoffSteps: nat := 4

  datatype Summary = Summary(pass: int, fail: int, warn: int, error: int, skip: int)

  const EmptySummary: Summary := Summary(0, 0, 0, 0, 0)

  /** The fields of a pod the handler reads. */
  datatype Pod = Pod(namespace: string, name: string, uid: string, apiVersion: string)

  /** A reference to another object (owner reference and report scope). */
  datatype ObjectReference = ObjectReference(namespace: string, name: string, kind: string, uid: string, apiVersion: string)

  /** A policy report as the store holds it. */
  datatype ReportValue = ReportValue(
    namespace: string,
    name: string,
    owner: Option<ObjectReference>,
    scope: Option<ObjectReference>,
    results: seq<ReportResult>,
    summary: Summary)

  /** The errors Update can return. */
  datatype Error = PodNotFound | ReadError(msg: string) | Conflict | WriteError(msg: string)

  /** What the cluster answers to one attempt of the retried read-modify-write:
      the report read fails (other than "not found"), the write conflicts
      with a concurrent change, the write fails otherwise, or it commits. */
  datatype Attempt = ReadFails(msg: string) | WriteConflicts | WriteFails(wmsg: string) | WriteSucceeds

  /** The in-memory policy report the handler mutates before writing it back. */
  class PolicyReport {
    var namespace: string
    var name: string
    var owner: Option<ObjectReference>
    var scope: Option<ObjectReference>
    var results: seq<ReportResult>
    var summary: Summary

    function Snapshot(): (v: ReportValue)
      reads this
      ensures v.results == results && v.summary == summary
      ensures v.namespace == namespace && v.name == name
    {
      ReportValue(namespace, name, owner, scope, results, summary)
    }

    constructor FromValue(v: ReportValue)
      ensures Snapshot() == v
    {
      namespace := v.namespace;
      name := v.name;
      owner := v.owner;
      scope := v.scope;
      results := v.results;
      summary := v.summary;
    }

    /** addResult: every entry in the slot of `result` is overwritten with
        it (properties merged), otherwise it is appended; Fail goes up by
        one either way. */
    method AddResult(result: ReportResult)
      modifies this`results, this`summary
      ensures results == AddResultSpec(old(results), result)
      ensures summary == old(summary).(fail := old(summary).fail + 1)
    {
      var rs := results;
      var found := false;
      var cur := result;
      var i := 0;
      assert rs[..0] == [];
      while i < |rs|
        invariant 0 <= i <= |rs| == |results|
        invariant rs == Scan(results[..i], result).0 + results[i..]
        invariant cur == Scan(results[..i], result).1
        invariant found <==> HasSlot(results[..i], result)
        invariant results == old(results) && summary == old(summary)
      {
        ScanStep(results, result, i);
        HasSlotStep(results, result, i);
        var res := rs[i];
        if SameSlot(res, cur) {
          cur := MergeInto(res, cur);
          rs := rs[i := cur];
          found := true;
        }
        i := i + 1;
      }
      assert results[..i] == results;
      if !found {
        ScanNoMatch(results, result);
        rs := rs + [cur];
      }
      results := rs;
      summary := summary.(fail := summary.fail + 1);
    }

    /** The legacy replace-only update (KubeArmor's and Hubble's
        addResult): every entry with pr's source and policy is overwritten
        with pr, whatever its rule, with no property merge; with none, pr is
        appended. The summary is not touched. */
    method ReplaceResult(pr: ReportResult)
      modifies this`results
      ensures results == ReplaceByPolicy(old(results), pr)
    {
      var rs := results;
      var found := false;
      var i := 0;
      while i < |rs|
        invariant 0 <= i <= |rs| == |results| && results == old(results)
        invariant forall j :: 0 <= j < i ==> rs[j] == if SamePolicy(results[j], pr) then pr else results[j]
        invariant forall j :: i <= j < |rs| ==> rs[j] == results[j]
        invariant found <==> exists j :: 0 <= j < i && SamePolicy(results[j], pr)
      {
        if rs[i].source == pr.source && rs[i].policy == pr.policy {
          rs := rs[i := pr];
          found := true;
        }
        i := i + 1;
      }
      if !found {
        rs := rs + [pr];
      }
      assert found <==> HasPolicy(results, pr);
      results := rs;
    }
  }

  /** A stored report after addResult has folded r into it. */
  function WithResult(v: ReportValue, r: ReportResult): ReportValue {
    v.(results := AddResultSpec(v.results, r), summary := v.summary.(fail := v.summary.fail + 1))
  }

  /** getPolicyReport's name for the report of a pod. */
  function ReportName(podUID: string): (n: string)
    ensures |n| == |podUID| + 4 && n[..4] == "prp-" && n[4..] == podUID
  {
    ReportNamePrefix + podUID
  }

  /** The report getPolicyReport starts from when none exists: in the item's
      namespace, named after the pod, owned by the pod and scoped to it. */
  function NewReport(namespace: string, pod: Pod): (v: ReportValue)
    ensures v.namespace == namespace && v.name == ReportName(pod.uid)
    ensures v.results == [] && v.summary == EmptySummary
    ensures v.owner.Some? && v.owner.value.uid == pod.uid && v.owner.value.kind == "Pod"
    ensures v.scope == Some(ObjectReference(pod.namespace, pod.name, "Pod", pod.uid, pod.apiVersion))
  {
    ReportValue(namespace, ReportName(pod.uid),
      Some(ObjectReference(pod.namespace, pod.name, "Pod", pod.uid, "v1")),
      Some(ObjectReference(pod.namespace, pod.name, "Pod", pod.uid, pod.apiVersion)),
      [], EmptySummary)
  }

  /** Where the report of a pod lives. */
  function ReportKey(namespace: string, pod: Pod): (k: ObjectKey)
    ensures k.namespace == namespace && k.name == ReportName(pod.uid)
  {
    ObjectKey(namespace, ReportName(pod.uid))
  }

  /** Every stored report sits under its own namespace and name. */
  predicate KeysMatch(reports: map<ObjectKey, ReportValue>) {
    forall k :: k in reports ==> reports[k].namespace == k.namespace && reports[k].name == k.name
  }

  /** The report getPolicyReport yields when the read does not fail. */
  function FetchOrNew(reports: map<ObjectKey, ReportValue>, namespace: string, pod: Pod): (v: ReportValue)
    requires KeysMatch(reports)
    ensures v.namespace == namespace && v.name == ReportName(pod.uid)
    ensures ReportKey(namespace, pod) in reports ==> v == reports[ReportKey(namespace, pod)]
    ensures ReportKey(namespace, pod) !in reports ==> v == NewReport(namespace, pod)
  {
    var key := ReportKey(namespace, pod);
    if key in reports then reports[key] else NewReport(namespace, pod)
  }

  /** The index of the attempt that decides RetryOnConflict: the first one
      that is not a conflict, or DefaultBackoffSteps when every allowed
      attempt conflicted. */
  function DecidingAttempt(outcome: nat -> Attempt, from: nat): (k: nat)
    requires from <= DefaultBackoffSteps
    ensures from <= k <= DefaultBackoffSteps
    ensures forall j :: from <= j < k ==> outcome(j).WriteConflicts?
    ensures k < DefaultBackoffSteps ==> !outcome(k).WriteConflicts?
    decreases DefaultBackoffSteps - from
  {
    if from == DefaultBackoffSteps || !outcome(from).WriteConflicts? then from
    else DecidingAttempt(outcome, from + 1)
  }

  /** An entry of a discovery answer: a group version and the kinds it serves. */
  datatype ResourceList = ResourceList(groupVersion: string, kinds: seq<string>)

  /** The discovery client's answer: an error or the preferred resources. */
  datatype Discovery = DiscoveryFailed(msg: string) | Discovered(lists: seq<ResourceList>)

  predicate ServesPolicyReport(l: ResourceList) {
    l.groupVersion == PolicyReportAPIVersion && PolicyReportKind in l.kinds
  }

  /** PolicyReportAvailable: true iff some group of the report's version
      lists the PolicyReport kind; a discovery error is returned as is. */
  method PolicyReportAvailable(d: Discovery) returns (available: bool, err: Option<string>)
    ensures d.DiscoveryFailed? ==> !available && err == Some(d.msg)
    ensures d.Discovered? ==> err.None?
    ensures d.Discovered? ==>
      (available <==> exists i :: 0 <= i < |d.lists| && ServesPolicyReport(d.lists[i]))
  {
    if d.DiscoveryFailed? {
      return false, Some(d.msg);
    }
    var lists := d.lists;
    var i := 0;
    while i < |lists|
      invariant 0 <= i <= |lists|
      invariant forall p :: 0 <= p < i ==> !ServesPolicyReport(lists[p])
    {
      if lists[i].groupVersion == PolicyReportAPIVersion {
        var kinds := lists[i].kinds;
        var j := 0;
        while j < |kinds|
          invariant 0 <= j <= |kinds|
          invariant PolicyReportKind !in kinds[..j]
        {
          if kinds[j] == PolicyReportKind {
            return true, None;
          }
          assert kinds[..j + 1] == kinds[..j] + [kinds[j]];
          j := j + 1;
        }
        assert kinds[..j] == kinds;
      }
      i := i + 1;
    }
    return false, None;
  }

  /** The cluster state the handler sees: pods and policy reports by key. */
  class Store {
    var pods: map<ObjectKey, Pod>
    var reports: map<ObjectKey, ReportValue>

    predicate Valid()
      reads this
    {
      KeysMatch(reports)
    }

    constructor (pods: map<ObjectKey, Pod>)
      ensures this.pods == pods && reports == map[] && Valid()
    {
      this.pods := pods;
      reports := map[];
    }

    /** getPolicyReport: reads the pod's report in the item's namespace, or
        prepares a new one when there is none; any other read failure is
        returned. */
    method GetPolicyReport(namespace: string, pod: Pod, readFailure: Option<string>)
      returns (pol: PolicyReport?, err: Option<Error>)
      requires Valid()
      ensures readFailure.Some? ==> pol == null && err == Some(ReadError(readFailure.value))
      ensures readFailure.None? ==>
        err.None? && pol != null && fresh(pol) && pol.Snapshot() == FetchOrNew(reports, namespace, pod)
    {
      if readFailure.Some? {
        return null, Some(ReadError(readFailure.value));
      }
      var key := ReportKey(namespace, pod);
      var v := if key in reports then reports[key] else NewReport(namespace, pod);
      pol := new PolicyReport.FromValue(v);
      err := None;
    }

    /** Update: an item without a name is ignored; otherwise the subject pod
        must exist, and the pod's report is read (or created), the result is
        added to it and it is written back, retrying on conflicts for at most
        DefaultBackoffSteps attempts. `outcome(k)` is the cluster's answer to
        attempt k. Only a committed write changes the store. */
    method Update<S>(item: Item<S>, outcome: nat -> Attempt) returns (err: Option<Error>)
      requires Valid()
      modifies this`reports
      ensures Valid()
      ensures item.key.name == "" ==> err.None? && reports == old(reports)
      ensures item.key.name != "" && item.key !in pods ==> err == Some(PodNotFound) && reports == old(reports)
      ensures item.key.name != "" && item.key in pods ==>
        var pod := pods[item.key];
        var k := DecidingAttempt(outcome, 0);
        if k == DefaultBackoffSteps then
          err == Some(Conflict) && reports == old(reports)
        else match outcome(k)
          case ReadFails(m) => err == Some(ReadError(m)) && reports == old(reports)
          case WriteFails(m) => err == Some(WriteError(m)) && reports == old(reports)
          case WriteSucceeds =>
            && err.None?
            && reports == old(reports)[ReportKey(item.key.namespace, pod) :=
                 WithResult(FetchOrNew(old(reports), item.key.namespace, pod), item.result)]
          case WriteConflicts => false
    {
      if item.key.name == "" {
        return None;
      }
      if item.key !in pods {
        return Some(PodNotFound);
      }
      var pod := pods[item.key];
      var k := 0;
      err := Some(Conflict);
      while k < DefaultBackoffSteps
        invariant 0 <= k <= DefaultBackoffSteps
        invariant DecidingAttempt(outcome, 0) == DecidingAttempt(outcome, k)
        invariant reports == old(reports) && err == Some(Conflict)
      {
        var attempt := outcome(k);
        var readFailure := if attempt.ReadFails? then Some(attempt.msg) else None;
        var pol, readErr := GetPolicyReport(item.key.namespace, pod, readFailure);
        if readErr.Some? {
          return readErr;
        }
        pol.AddResult(item.result);
        assert pol.Snapshot() == WithResult(FetchOrNew(reports, item.key.namespace, pod), item.result);
        match attempt {
          case WriteConflicts =>
          case WriteFails(m) =>
            return Some(WriteError(m));
          case WriteSucceeds =>
            reports := reports[ReportKey(item.key.namespace, pod) := pol.Snapshot()];
            return None;
        }
        k := k + 1;
      }
    }
  }

  /** Every stored report stays under the name getPolicyReport derives from
      its pod: a successful Update writes "prp-" + uid in the item's
      namespace. */
  lemma UpdateKeepsKeys(reports: map<ObjectKey, ReportValue>, namespace: string, pod: Pod, r: ReportResult)
    requires KeysMatch(reports)
    ensures KeysMatch(reports[ReportKey(namespace, pod) := WithResult(FetchOrNew(reports, namespace, pod), r)])
  {
  }

  /** A first result for a pod creates its report holding exactly that
      result, with Fail at one. */
  lemma FirstResultCreatesReport(reports: map<ObjectKey, ReportValue>, namespace: string, pod: Pod, r: ReportResult)
    requires KeysMatch(reports) && ReportKey(namespace, pod) !in reports
    ensures WithResult(FetchOrNew(reports, namespace, pod), r).results == [r]
    ensures WithResult(FetchOrNew(reports, namespace, pod), r).summary == Summary(0, 1, 0, 0, 0)
    ensures WithResult(FetchOrNew(reports, namespace, pod), r).name == "prp-" + pod.uid
  {
  }
}
