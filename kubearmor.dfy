/** The KubeArmor alert normaliser in its three revisions: the legacy one
    that writes straight into a report with the replace-only rule, the
    adapter that builds an ingest item, and the plugin that builds the same
    item on the shared types. RFC 3339 formatting of the alert's time is a
    parameter. */
module KubeArmor {
  import opened Api
  import opened Decimal
  import opened Merge
  import opened Report

  const ReportSource: string := "KubeArmor"
  const HandlerID: string := "kubearmor"

  /** A point in time; only its RFC 3339 rendering is ever used. */
  type Instant = int

  /** The alert fields the normalisers read. */
  datatype Alert = Alert(
    timestamp: int32,
    updatedTime: Instant,
    namespaceName: string,
    podName: string,
    parentProcessName: string,
    processName: string,
    policyName: string,
    severity: string,
    alertType: string,
    source: string,
    operation: string,
    resource: string,
    result: string,
    cwd: string)

  /** The severity scale "1".."10" in bands of two, with a typo-proof
      default: anything else, the empty string included, is info. */
  function ResultSeverity(level: string): (s: Severity)
    ensures s in {Info, Medium, Low, High, Critical}
    ensures s == Critical <==> level == "9" || level == "10"
    ensures s == High <==> level == "7" || level == "8"
    ensures s == Low <==> level == "5" || level == "6"
    ensures s == Medium <==> level == "3" || level == "4"
  {
    match level
    case "1" => Info
    case "2" => Info
    case "3" => Medium
    case "4" => Medium
    case "5" => Low
    case "6" => Low
    case "7" => High
    case "8" => High
    case "9" => Critical
    case "10" => Critical
    case _ => Info
  }

  /** The band a numeric level 1..10 falls into. */
  function Band(n: int): Severity
    requires 1 <= n <= 10
  {
    if n <= 2 then Info else if n <= 4 then Medium else if n <= 6 then Low else if n <= 8 then High else Critical
  }

  /** Every level 1..10 written in decimal is mapped by its band; a level
      outside 1..10 is info. The bands are not in order of severity: 5 and
      6 (low) rank below 3 and 4 (medium). */
  lemma SeverityOfLevel(n: int)
    requires IsInt64(n)
    ensures 1 <= n <= 10 ==> ResultSeverity(FormatInt(n)) == Band(n)
    ensures !(1 <= n <= 10) ==> ResultSeverity(FormatInt(n)) == Info
  {
    if n < 0 {
      assert FormatInt(n)[0] == '-';
    } else if n >= 11 {
      DigitsNoLeadingZero(n);
      assert |Digits(n)| >= 2 by {
        assert Digits(n) == Digits(n / 10) + [DigitChar(n % 10)];
      }
      if |Digits(n)| == 2 {
        assert Digits(n)[0] == Digits(n / 10)[0];
        assert n / 10 >= 1;
        if n / 10 == 1 {
          assert n % 10 >= 1;
          assert Digits(n) == ['1', DigitChar(n % 10)];
        }
      }
    } else if n == 10 {
      assert FormatInt(10) == "10";
    }
  }

  /** The legacy result (pkg/kubearmor): a scored failure of policy
      PolicyName reported by KubeArmor, with the process details and the
      alert time as its properties. */
  function AlertResult(a: Alert, rfc3339: Instant -> string): (r: ReportResult)
    ensures r.source == ReportSource && r.policy == a.policyName && r.rule == ""
    ensures r.result == Fail && r.scored && r.message == a.result && r.category == a.alertType
    ensures r.severity == ResultSeverity(a.severity) && r.timestamp == a.timestamp
    ensures r.properties.Keys == {"ProcessName", "ParentProcessName", "Source", "Operation", "Resource", "Cwd", "UpdatedTime"}
    ensures r.properties["UpdatedTime"] == rfc3339(a.updatedTime) && r.properties["ProcessName"] == a.processName
  {
    ReportResult(
      ReportSource, a.policyName, "", [], a.result, Fail, true,
      map["ProcessName" := a.processName, "ParentProcessName" := a.parentProcessName, "Source" := a.source,
          "Operation" := a.operation, "Resource" := a.resource, "Cwd" := a.cwd,
          "UpdatedTime" := rfc3339(a.updatedTime)],
      a.timestamp, a.alertType, ResultSeverity(a.severity))
  }

  /** The legacy addResult: every entry of the report with source
      KubeArmor and the alert's policy is overwritten with the new result,
      whatever its rule, with no property merge; with none, the result is
      appended. The summary is not touched. */
  method AddAlertResult(a: Alert, pol: PolicyReport, rfc3339: Instant -> string)
    modifies pol`results
    ensures pol.results == ReplaceByPolicy(old(pol.results), AlertResult(a, rfc3339))
    ensures pol.summary == old(pol.summary)
  {
    pol.ReplaceResult(AlertResult(a, rfc3339));
  }

  /** The adapter's item (pkg/adapter/kubearmor, and the plugin on the
      shared types): handler "kubearmor", subject the alert's pod, an empty
      rule, and eight properties of which "created" and "updated" are the
      same rendering of the alert time. The alert itself is the source. */
  function ToItem(a: Alert, rfc3339: Instant -> string): (it: Item<Alert>)
    ensures it.handlerID == HandlerID && it.key == ObjectKey(a.namespaceName, a.podName) && it.source == a
    ensures it.result.source == ReportSource && it.result.policy == a.policyName && it.result.rule == ""
    ensures it.result.result == Fail && it.result.scored && it.result.message == a.result
    ensures it.result.category == a.alertType && it.result.severity == ResultSeverity(a.severity)
    ensures it.result.timestamp == a.timestamp
    ensures it.result.properties.Keys ==
      {PropertyCreated, PropertyUpdated, "process-name", "parent-process-name", "source", "operation", "resource", "cwd"}
    ensures it.result.properties[PropertyCreated] == it.result.properties[PropertyUpdated] == rfc3339(a.updatedTime)
  {
    var t := rfc3339(a.updatedTime);
    ItemFor(HandlerID, a.namespaceName, a.podName,
      ReportResult(
        ReportSource, a.policyName, "", [], a.result, Fail, true,
        map[PropertyCreated := t, PropertyUpdated := t, "process-name" := a.processName,
            "parent-process-name" := a.parentProcessName, "source" := a.source, "operation" := a.operation,
            "resource" := a.resource, "cwd" := a.cwd],
        a.timestamp, a.alertType, ResultSeverity(a.severity)),
      a)
  }

  /** Adapter items of two alerts fall into the same report slot exactly
      when the alerts name the same policy, so the merge engine keeps one
      entry per KubeArmor policy, as the legacy replace-only rule did. */
  lemma AdapterSlotIsPolicy(a: Alert, b: Alert, rfc3339: Instant -> string)
    ensures SameSlot(ToItem(a, rfc3339).result, ToItem(b, rfc3339).result) <==> a.policyName == b.policyName
    ensures SameSlot(ToItem(a, rfc3339).result, ToItem(b, rfc3339).result) <==>
      SamePolicy(AlertResult(a, rfc3339), AlertResult(b, rfc3339))
  {
  }
}
