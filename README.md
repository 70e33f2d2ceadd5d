# policy-report-publisher, modelled in Dafny

policy-report-publisher turns security findings into Kubernetes
`PolicyReport` objects, one report per affected pod. Two observers produce
the findings: KubeArmor alerts and Cilium Hubble dropped-flow events.
Sidecar adapters normalise each finding into an *item*. An item is a
subject pod, a handler id, a policy-report result and the raw source. The
adapter pushes items to the publisher over gRPC (unary `PushItems` or
streaming `StreamItems`) or over HTTP (`POST /v1/items`). A batching
channel on the client side groups items before it publishes them. The
publisher's merge engine then folds each item into the pod's report:

- A result replaces the stored result with the same (source, policy, rule).
- The replaced result's properties are merged into the new ones.
- The merged properties keep the first `created` time and carry a `count`
  of repeat submissions.
- Every addition counts as a failure in the report's summary.

The model is in these modules, one per file:

| module | file | models |
|---|---|---|
| `Api` | api.dfy | the item and result types, `ItemFor`, the nil-skipping filter used everywhere |
| `Decimal` | decimal.dfy | `strconv.Atoi`/`Itoa` on 64-bit ints, as the merge's `count` needs them |
| `Merge` | merge.dfy | `addResult`/`mergeProperties` as functions on the result list, the legacy replace-by-policy rule, and the nil-map finding |
| `Report` | report.dfy | the report object (a class whose `AddResult` loop rewrites its results), the report store, `Update`, `getPolicyReport`, `PolicyReportAvailable` |
| `IngestService` | ingest_service.dfy | the gRPC ingest server: `PushItems`, `StreamItems`, the service table |
| `Publisher` | publisher.dfy | the gRPC publisher's `invoke` and the `PushChannel` batching loop |
| `IngestHttp` | ingest_http.dfy | the HTTP `/v1/items` handler and its hand-written `itoa` |
| `KubeArmor` | kubearmor.dfy | the KubeArmor normaliser in its legacy, adapter and plugin forms |
| `Hubble` | hubble.dfy | the legacy Hubble mapper and item builder, and their flow filter |
| `HubbleAdapter` | hubble_adapter.dfy | the Hubble sidecar adapter: destination, pod labels, item, flow filter |

External effects enter the model as parameters:

- The Kubernetes API becomes a `Store` of pods and reports plus an
  `outcome` function that gives the cluster's answer to each write attempt.
- Discovery becomes a `Discovery` value.
- JSON encoding and decoding become function parameters. So does RFC 3339
  time formatting.
- Context cancellation becomes a `Deadline`: either never, or after a given
  number of channel sends.
- The batching loop's `select` becomes a sequence of events.
- Go's random map iteration order becomes an explicit visit order for each
  pod label. The adapter's labels are proved to be the same in every order.

## Model

| member | source | states |
|---|---|---|
| Api.Lookup | pkg/report/report.go:194-200 | reading a missing key of a Go map gives the empty string; a present key gives its value |
| Api.Present | internal/ingest/IngestServiceServer.go:56-59 | skipping nil entries never lengthens a list |
| Api.PresentCount | internal/ingest/IngestReportHTTPServer.go:61-68 | the number of surviving entries equals the count of non-nil entries |
| Api.PresentMembers | internal/ingest/IngestServiceServer.go:56-59 | an item survives the nil filter iff it was a non-nil entry |
| Api.PresentAppend | internal/ingest/GRPCPublisher.go:38-41 | the filter processes one entry at a time: a nil entry adds nothing, a non-nil one adds itself |
| Api.PresentConcat | internal/ingest/IngestServiceServer.go:101-104 | filtering two lists one after the other equals filtering their concatenation |
| Api.ItemFor | pkg/api/types.go:20-30 | the item carries exactly the given handler, namespace, name, result and source |
| Api.ItemWithoutHandler | pkg/report/types.go:29-38 | the legacy item is an item with an empty handler id |
| Api.PropertyKeysDistinct | pkg/api/types.go:8-11 | the `created` and `updated` property names differ, so the two timestamps never overwrite each other |
| Decimal.DigitChar | pkg/report/report.go:204 | a digit value below 10 becomes a decimal digit character |
| Decimal.DigitValue | pkg/report/report.go:194 | a digit character's value is below 10 and maps back to the same character |
| Decimal.Digits | pkg/report/report.go:204 | a natural number's decimal form is non-empty and all digits |
| Decimal.DigitsNoLeadingZero | pkg/report/report.go:204 | `Itoa` never writes a leading zero, except for 0 itself |
| Decimal.ValueOfDigits | pkg/report/report.go:194 | reading back a number's digits gives the number |
| Decimal.DigitsStep | internal/ingest/IngestReportHTTPServer.go:134-138 | a positive number's digits are the digits of n/10 followed by the digit n%10 |
| Decimal.DigitsLength | internal/ingest/IngestReportHTTPServer.go:132 | a number below 10^k has at most k digits |
| Decimal.Int64Digits | internal/ingest/IngestReportHTTPServer.go:132 | every magnitude of a 64-bit int fits in 19 digits, so the 20-byte buffer always has room for the sign |
| Decimal.ParseInt | pkg/report/report.go:194-197 | `Atoi` succeeds only with a 64-bit value and fails on the empty string |
| Decimal.ParseFormat | pkg/report/report.go:194-204 | `Atoi(Itoa(n)) == n` for every 64-bit n, so the stored count reads back exactly |
| Decimal.ParseUnsigned | pkg/report/report.go:194 | an unsigned decimal in range parses to its value |
| Decimal.ParseNegated | pkg/report/report.go:194 | a `-` followed by digits parses to the negated value, down to the smallest 64-bit int |
| Decimal.FormatNonNegative | pkg/report/report.go:204 | a non-negative number is written as digits only, with a leading 0 exactly for 0 |
| Decimal.FormatNegative | pkg/report/report.go:204 | a negative number is written as `-` then its magnitude |
| Merge.ParseCount | pkg/report/report.go:194-197 | the stored count is a 64-bit int; a missing or unreadable count is 0 |
| Merge.Increment | pkg/report/report.go:198 | the incremented count stays a 64-bit int (Go's wrap-around at the top) |
| Merge.MergePropertiesMeaning | pkg/report/report.go:192-209 | merged keys are the union of stored and incoming keys plus `count`; incoming values win; stored-only keys are kept; `count` is the stored count plus one; a non-empty stored `created` is kept, otherwise the incoming one |
| Merge.Scan | pkg/report/report.go:178-184 | the scan keeps the list's length and carries the incoming result into every overwritten slot |
| Merge.ScanUnmatched | pkg/report/report.go:179 | an entry of another (source, policy, rule) is left untouched |
| Merge.ScanMatched | pkg/report/report.go:179-181 | a matching entry becomes the incoming result with the merged properties |
| Merge.ScanStep | pkg/report/report.go:178-184 | one loop turn extends the scan of the prefix by one entry; this is the step the imperative loop is proved with |
| Merge.ScanNoMatch | pkg/report/report.go:186-188 | with no matching entry the scan changes nothing |
| Merge.ScanSingleMatch | pkg/report/report.go:178-184 | with exactly one matching entry only that entry changes |
| Merge.AddResultAppendsNewSlot | pkg/report/report.go:186-188 | a result for a new (source, policy, rule) is appended and everything before it is kept |
| Merge.AddResultOverwritesSlot | pkg/report/report.go:178-184 | a result for a known slot keeps the length, keeps every other entry, and gives the matching entry the incremented count and the first `created` |
| Merge.AddResultUniqueMerge | pkg/report/report.go:175-190 | on a report with one entry per slot, adding merges into exactly that entry |
| Merge.AddResultKeepsSlotsUnique | pkg/report/report.go:175-190 | adding a result never creates two entries for the same slot |
| Merge.MergeIntoLast | pkg/report/report.go:175-190 | a resubmission for the newest slot merges into it |
| Merge.CounterStep | pkg/report/report.go:194-204 | the n-th submission of a slot stores count n-1 |
| Merge.RepeatedStep | pkg/report/report.go:175-209 | one more submission of the same slot keeps one entry, takes the newest result, and keeps the first `created` |
| Merge.RepeatedSubmissions | pkg/report/report.go:175-209 | k submissions of one slot leave one entry: the last result, count k-1 (none after the first), and the first non-empty `created` |
| Merge.RunExtends | pkg/report/report.go:175-209 | the induction step of the previous row |
| Merge.DistinctRulesKeepTwoSlots | pkg/report/report.go:179 | two results that differ only in their rule keep two entries |
| Merge.Reloaded | pkg/report/report.go:193 | an empty property map comes back from the cluster as a nil map |
| Merge.MergePropertiesAsWritten | pkg/report/report.go:192-209 | as written, the merge fails (panics) exactly when the stored properties are a nil map, and otherwise equals the corrected merge |
| Merge.NilPropertiesPanicOnResubmission | pkg/report/report.go:192-209 | a result first stored with no properties makes its second submission panic, where the corrected merge stores `count` 1 |
| Merge.ReplaceByPolicy | pkg/hubble/mapper.go:52-63 | the legacy rule overwrites every entry with the same source and policy, whatever its rule, and appends only when there is none; the result is always present afterwards |
| Merge.ReplaceByPolicyIdempotent | pkg/hubble/mapper.go:52-63 | replacing twice with the same result is the same as once |
| Merge.ReplaceByPolicyLastWins | pkg/hubble/mapper.go:52-63 | of two results for the same policy only the later is kept |
| Merge.ReplaceByPolicyIgnoresRule | pkg/kubearmor/types.go:79-90 | unlike the merge engine, the legacy rule collapses two rules of one policy into one entry |
| Report.PolicyReport.Snapshot | pkg/report/report.go:144-173 | the report's value holds its fields |
| Report.PolicyReport.FromValue | pkg/report/report.go:148-149 | a report read from the store has exactly the stored value |
| Report.PolicyReport.AddResult | pkg/report/report.go:175-190 | the loop rewrites the results to the merge engine's list and adds one to the summary's failures |
| Report.PolicyReport.ReplaceResult | pkg/hubble/mapper.go:52-63 | the legacy loop rewrites the results to the replace-by-policy list |
| Report.ReportName | pkg/report/report.go:145-146 | the report's name is `prp-` followed by the pod's UID |
| Report.NewReport | pkg/report/report.go:151-166 | a new report lives in the item's namespace, has no results and an empty summary, is owned by the pod, and is scoped to the pod |
| Report.ReportKey | pkg/report/report.go:149 | the report is looked up in the item's namespace under its `prp-` name |
| Report.FetchOrNew | pkg/report/report.go:144-173 | the stored report when there is one, a new one when it is not found |
| Report.DecidingAttempt | pkg/report/report.go:131 | the attempt that decides the retry is the first non-conflicting one, or the last allowed one |
| Report.PolicyReportAvailable | pkg/report/report.go:94-110 | a discovery error is returned with false; otherwise true iff some group of the report's API version lists the PolicyReport kind |
| Report.Store.constructor | pkg/report/report.go:41-65 | a new store holds the given pods and no reports |
| Report.Store.GetPolicyReport | pkg/report/report.go:144-173 | a read failure other than "not found" is returned; otherwise the stored or a new report |
| Report.Store.Update | pkg/report/report.go:112-142 | a nameless item is ignored; a missing pod is an error; otherwise the deciding attempt either commits the report with the result added or returns its error, and only a commit changes the store |
| Report.UpdateKeepsKeys | pkg/report/report.go:144-173 | every stored report stays under the key of its own namespace and name |
| Report.FirstResultCreatesReport | pkg/report/report.go:144-190 | a pod's first result creates `prp-<uid>` holding that one result and one failure |
| IngestService.DecodeSource | internal/ingest/IngestServiceServer.go:60-70 | an absent or `null` source gives no source; an object decodes to a map; anything else is kept as raw bytes |
| IngestService.ToItem | internal/ingest/IngestServiceServer.go:71 | the item keeps the wire item's key, handler and result |
| IngestService.Converted | internal/ingest/IngestServiceServer.go:56-71 | one item per non-nil wire item |
| IngestService.ConvertedConcat | internal/ingest/IngestServiceServer.go:101-114 | converting two batches one after the other equals converting their concatenation |
| IngestService.StreamEnqueued | internal/ingest/IngestServiceServer.go:89-129 | the items a stream enqueues number exactly the non-nil items received |
| IngestService.TotalMonotone | internal/ingest/IngestServiceServer.go:119 | the running accepted count never decreases over the batches |
| IngestService.RunningAcks | internal/ingest/IngestServiceServer.go:125 | one acknowledgement per batch received |
| IngestService.RunningAcksMonotone | internal/ingest/IngestServiceServer.go:125 | successive acknowledgements never report fewer accepted items |
| IngestService.RunningAcksStep | internal/ingest/IngestServiceServer.go:125 | each acknowledgement carries the total accepted so far |
| IngestService.StreamPrefix | internal/ingest/IngestServiceServer.go:89-129 | what a stream enqueued after some batches is a prefix of what it enqueues after all of them |
| IngestService.IngestServer.constructor | internal/ingest/IngestServiceServer.go:47-49 | the server starts with an empty queue |
| IngestService.IngestServer.Enqueue | internal/ingest/IngestServiceServer.go:56-79 | without cancellation all non-nil items are queued in order and counted; on cancellation exactly the items sent before it stay queued |
| IngestService.IngestServer.PushItems | internal/ingest/IngestServiceServer.go:51-81 | a nil request is acknowledged with 0; otherwise the non-nil items are queued and counted, or the context error is returned with the items sent so far queued |
| IngestService.IngestServer.ReceiveBatch | internal/ingest/IngestServiceServer.go:101-123 | one received batch extends the queue and the running count by its non-nil items, or stops at cancellation |
| IngestService.AckedBatches | internal/ingest/IngestServiceServer.go:125-127 | the batches a stream reads before a failed acknowledgement stops it: all of them, or those up to the failing one |
| IngestService.IngestServer.StreamItems | internal/ingest/IngestServiceServer.go:89-129 | the acknowledgements are the running totals; no error iff the deadline covers every item and no acknowledgement fails; the context error iff the deadline runs out within the batches read before a failed acknowledgement; the send error otherwise; in each case exactly the items sent so far are queued |
| IngestService.FullMethod | internal/ingest/IngestServiceServer.go:148 | a full gRPC method name is `/service/method` |
| IngestService.HandlePushItems | internal/ingest/IngestServiceServer.go:138-145 | a decode error is returned before anything is queued; otherwise the non-nil items are queued and counted, or on cancellation the error is returned with exactly the items sent before it queued, as PushItems does |
| Publisher.WireSource | internal/ingest/GRPCPublisher.go:42-47 | the wire source is the marshalled source; it is empty when the source is nil or does not marshal |
| Publisher.ToWire | internal/ingest/GRPCPublisher.go:48-54 | a wire item keeps the item's key, handler and result |
| Publisher.WireItems | internal/ingest/GRPCPublisher.go:37-55 | the request never has more entries than the batch |
| Publisher.WireItemsMatch | internal/ingest/GRPCPublisher.go:37-55 | the request has exactly one non-nil wire item per non-nil item, in order |
| Publisher.Invoke | internal/ingest/GRPCPublisher.go:36-59 | the call goes to the PushItems path of the service table with the batch's wire items |
| Publisher.PublishThenIngest | internal/ingest/GRPCPublisher.go:36-59 | the server's decoding of a published batch gives back one item per non-nil item, with the same key, handler and result; a nil source stays absent and an object source comes back as a map |
| Publisher.Cap | internal/ingest/GRPCPublisher.go:106 | the buffer is flushed at maxBatch items, or at every item when maxBatch is 0 |
| Publisher.Flushed | internal/ingest/GRPCPublisher.go:86-92 | a flush publishes the whole buffer, or nothing when it is empty, and empties it |
| Publisher.NextSound | internal/ingest/GRPCPublisher.go:97-127 | every loop turn keeps the published batches plus the buffer equal to the items received, keeps every batch non-empty and within maxBatch, and stops exactly on close, cancellation or stop |
| Publisher.NextEffect | internal/ingest/GRPCPublisher.go:97-127 | a nil item changes nothing; an item that leaves the buffer below maxBatch is buffered; one that fills it publishes the full buffer; a timer tick publishes the partial buffer, or nothing when it is empty; close, cancellation and stop publish the partial buffer and end the loop |
| Publisher.Run | internal/ingest/GRPCPublisher.go:97-127 | after a sequence of events the loop has taken one turn per event |
| Publisher.RunSound | internal/ingest/GRPCPublisher.go:80-127 | until a terminal event the loop stays sound, and it has stopped exactly when the last event was terminal |
| Publisher.RunOutcome | internal/ingest/GRPCPublisher.go:80-127 | after the events handled the loop is sound, every published batch holds 1 to maxBatch items, and once stopped every non-nil item received has been published in order |
| Publisher.TickFlushes | internal/ingest/GRPCPublisher.go:117-119 | right after a timer tick every non-nil item received so far has been published and the timer restarts at that turn |
| Publisher.NextTimer | internal/ingest/GRPCPublisher.go:106-119 | the timer is restarted exactly on a tick and after a size-triggered flush; a nil item changes nothing |
| Publisher.StartSound | internal/ingest/GRPCPublisher.go:85-94 | the loop starts sound, with an empty buffer and a fresh timer |
| Publisher.PushLoop | internal/ingest/GRPCPublisher.go:80-128 | the loop handles events until the first terminal one and ends in the state Run gives for them, so each turn has NextEffect's effect and a tick flushes (TickFlushes); every published batch holds 1 to maxBatch items; on stop every received item has been published, in order |
| IngestHttp.ErrorResponse | internal/ingest/IngestReportHTTPServer.go:33 | an error reply carries the status and the message followed by a newline |
| IngestHttp.ContainsAt | internal/ingest/IngestReportHTTPServer.go:37 | a string contains a substring iff it occurs at some index |
| IngestHttp.LeadingSpace | internal/ingest/IngestReportHTTPServer.go:48 | counts exactly the leading white-space bytes |
| IngestHttp.TrailingSpace | internal/ingest/IngestReportHTTPServer.go:48 | counts exactly the trailing white-space bytes |
| IngestHttp.TrimSpace | internal/ingest/IngestReportHTTPServer.go:48 | the result is the body between its leading and trailing white space, starts and ends with non-space, and is empty iff the body is all white space |
| IngestHttp.ReadBody | internal/ingest/IngestReportHTTPServer.go:43 | the body is read up to 10 MiB; a longer one is cut at 10 MiB |
| IngestHttp.Admit | internal/ingest/IngestReportHTTPServer.go:31-83 | 405 iff the method is not POST; 415 iff a non-empty content type lacks `application/json`; 400 iff the read fails, the trimmed body is empty or the JSON does not decode; otherwise a body starting with `[` is a batch and any other body is a single item |
| IngestHttp.Itoa | internal/ingest/IngestReportHTTPServer.go:123-144 | the 20-byte buffer gives `strconv.Itoa`'s text for every 64-bit int except the smallest, which comes out as `-` |
| IngestHttp.WriteDigits | internal/ingest/IngestReportHTTPServer.go:133-138 | the digit loop leaves a positive number's decimal digits at the end of the buffer |
| IngestHttp.PutBefore | internal/ingest/IngestReportHTTPServer.go:139-142 | the sign is written just before the digits, which are left as they were |
| IngestHttp.HttpIngest.constructor | internal/ingest/IngestReportHTTPServer.go:21 | the handler's channel starts empty |
| IngestHttp.HttpIngest.EnqueueAll | internal/ingest/IngestReportHTTPServer.go:61-73 | the non-nil items are sent in order and counted; on cancellation exactly those sent before it stay queued |
| IngestHttp.HttpIngest.Handle | internal/ingest/IngestReportHTTPServer.go:31-91 | a refused request gets its status and message and queues nothing; a batch is answered 202 with its non-nil count, a single item with 1; a shutdown answers 503 |
| KubeArmor.ResultSeverity | pkg/kubearmor/types.go:93-118 | levels 9 and 10 are critical, 7 and 8 high, 5 and 6 low, 3 and 4 medium; everything else is info |
| KubeArmor.SeverityOfLevel | pkg/adapter/kubearmor/types.go:81-105 | every level written in decimal falls into its band of two; anything outside 1..10 is info |
| KubeArmor.AlertResult | pkg/kubearmor/types.go:50-77 | the legacy result is a scored failure of the alert's policy from KubeArmor, with seven process properties including the alert time |
| KubeArmor.AddAlertResult | pkg/kubearmor/types.go:48-91 | the legacy addResult replaces by policy and leaves the summary alone |
| KubeArmor.ToItem | pkg/adapter/kubearmor/types.go:49-79 | the adapter's item has handler `kubearmor`, the alert's pod as subject, and eight properties, of which `created` and `updated` are both the alert time |
| KubeArmor.AdapterSlotIsPolicy | plugins/kubearmor/types.go:47-75 | two adapter items fall into the same report slot iff their alerts name the same policy, the same grouping the legacy rule uses |
| Hubble.Nanos | pkg/hubble/mapper.go:33-35 | the timestamp's nanoseconds, or 0 for a flow without a time |
| Hubble.UpdatedTime | pkg/hubble/mapper.go:37 | the flow time in RFC 3339, or the epoch for a flow without a time |
| Hubble.Port | pkg/hubble/mapper.go:44 | the port is written in decimal and reads back as itself |
| Hubble.PingKey | pkg/hubble/mapper.go:47 | the ping key is `ping ` followed by the destination IP |
| Hubble.PingValue | pkg/hubble/mapper.go:48 | the ping value gives the ICMP type and code |
| Hubble.WithAll | pkg/hubble/mapper.go:43-45 | every destination name is added with the same value and no other key changes |
| Hubble.SetAll | pkg/hubble/mapper.go:43-45 | the loop over destination names computes exactly that map |
| Hubble.BaseResult | pkg/hubble/mapper.go:18-39 | a scored high-severity failure of the egress policy from Cilium Hubble, with the flow's direction, drop reason and nanoseconds, and only `UpdatedTime` as property |
| Hubble.MapperPropertiesMeaning | pkg/hubble/mapper.go:36-50 | `UpdatedTime` is always a key, holding the time unless a TCP destination is itself named `UpdatedTime`; a TCP flow adds its destination names, each with the port; a ping adds its `ping` key with `type: T / code: C`; any other flow adds nothing |
| Hubble.FlowProperties | pkg/hubble/mapper.go:36-50 | the property loops compute the mapper's properties, or the item's when the pod-key rule is on |
| Hubble.AddResultFor | pkg/hubble/mapper.go:14-64 | the mapper replaces by policy with the flow's result and leaves the summary alone |
| Hubble.LatestFlowWins | pkg/hubble/mapper.go:52-63 | of two flows only the later one's result is kept |
| Hubble.PodKey | pkg/hubble/types.go:42 | the key is the namespace, a `/`, then the pod name |
| Hubble.ItemPropertiesExtendMapper | pkg/hubble/types.go:39-52 | the item's properties equal the mapper's, except that a TCP flow with no destination names but a destination pod gets the pod key instead |
| Hubble.ToItem | pkg/hubble/types.go:15-55 | the legacy item has the flow's source pod as subject, no handler, the flow as source, and the mapper result with the item properties |
| Hubble.LegacyFilterInverted | pkg/hubble/client.go:127-129 | as written, every TCP or ping flow is dropped, a nil flow is passed on, and a passed flow only ever gets `UpdatedTime` |
| HubbleAdapter.LabelPrefix | internal/adapter/hubble/types.go:63 | the prefix is `k8s:`, the label name, then `=` |
| HubbleAdapter.Destination | internal/adapter/hubble/types.go:70-87 | the protocol is `TCP` iff the flow is TCP with a name, a destination namespace or an IP; `ping` iff it is ICMPv4; otherwise both parts are empty |
| HubbleAdapter.TcpDestination | internal/adapter/hubble/types.go:72-81 | a TCP destination is host `:` port; the host is the first destination name, else `namespace/pod`, else the IP; the port reads back as itself |
| HubbleAdapter.EmptyDestination | internal/adapter/hubble/types.go:70-87 | a ping's destination is the IP; the destination is empty iff there is no protocol or the ping IP is empty |
| HubbleAdapter.MatchedKey | internal/adapter/hubble/types.go:62-64 | a matched key is a considered label whose prefix the pod label has |
| HubbleAdapter.FirstMatch | internal/adapter/hubble/types.go:62-64 | a search returns a matching label or none when none of the labels match |
| HubbleAdapter.AtMostOneMatch | internal/adapter/hubble/types.go:16-21 | no pod label matches two considered labels |
| HubbleAdapter.MatchUnique | internal/adapter/hubble/types.go:61-66 | whichever order the considered labels are visited in, a pod label matches the same one |
| HubbleAdapter.SplitValue | internal/adapter/hubble/types.go:64 | the value after the first `=` is shorter than the label |
| HubbleAdapter.ValueAfterPrefix | internal/adapter/hubble/types.go:63-64 | the copied value is everything after the matched prefix |
| HubbleAdapter.PodLabels | internal/adapter/hubble/types.go:60-68 | copying pod labels only adds keys |
| HubbleAdapter.PodLabelsUntouched | internal/adapter/hubble/types.go:60-68 | a key that is not a considered label, or that no pod label matches, is left as it was |
| HubbleAdapter.PodLabelsLastMatch | internal/adapter/hubble/types.go:60-68 | a considered label takes its value from the last pod label that matches it |
| HubbleAdapter.AddPodLabels | internal/adapter/hubble/types.go:60-68 | the nested loops give the same labels in every map iteration order |
| HubbleAdapter.CopyStep | internal/adapter/hubble/types.go:62-65 | one inner-loop turn copies the value iff the pod label has that label's prefix |
| HubbleAdapter.CopyLabel | internal/adapter/hubble/types.go:62-66 | the inner loop copies the one matching label's value, or nothing |
| HubbleAdapter.AdapterResult | internal/adapter/hubble/types.go:29-53 | a scored high-severity failure of the egress policy from Blocked Egress, whose rule is the destination |
| HubbleAdapter.AdapterResultProperties | internal/adapter/hubble/types.go:48-55 | `created` and `updated` are both the flow time, and `protocol` is the protocol; the copied labels never displace them |
| HubbleAdapter.AdapterResultLabelKeys | internal/adapter/hubble/types.go:55-68 | every other key of the result is a considered label that some pod label of the source matches |
| HubbleAdapter.AdapterResultLabelValues | internal/adapter/hubble/types.go:55-68 | every considered label that a pod label matches is a key of the result, holding the value of the last pod label that matches it |
| HubbleAdapter.PodLabelsNewKeys | internal/adapter/hubble/types.go:60-68 | a key the label copy adds is a considered label that some pod label matches |
| HubbleAdapter.PodLabelsValues | internal/adapter/hubble/types.go:60-68 | every considered label that a pod label matches holds the value after the prefix of the last pod label that matches it |
| HubbleAdapter.ToItem | internal/adapter/hubble/types.go:23-58 | no item iff the destination is empty; otherwise handler `clilum-blocked-egress`, the source pod as subject, the flow as source, and the result with the pod labels added |
| HubbleAdapter.FilterKeepsNameableFlows | internal/adapter/hubble/client.go:119-122 | a flow passes iff it has a named source pod and is TCP or ping; a flow with a named source and a destination always passes |

## Left out

- The Kubernetes client, discovery client and Prometheus counter are left out; so are logging, the `logReports` dump, leader election and environment handling. The store and the attempt outcomes stand in for the API server.
- Report.Store.Update: `CreateOrUpdate` and `RetryOnConflict` are modelled as a sequence of attempt outcomes. Backoff timing and concurrent writers are not modelled.
- Report.PolicyReport.AddResult: the summary's `Fail` is an unbounded int. The overflow of Go's `int` is not modelled.
- Merge.MergePropertiesMeaning: `maps.Copy` writes into the stored map in place. The model returns a new map, so aliasing of the stored map is not captured.
- IngestService.HandlePushItems: the interceptor path is not modelled. Its full method name is the `PushItemsPath` constant, built from the service table by FullMethod; the literal the source writes is not compared with it.
- IngestService.IngestServer.StreamItems: every receive error, cancellation included, is modelled as the end of the received batches. The stream's own context is the `Deadline`.
- Publisher.PushLoop: Go's `select` chooses nondeterministically; the model takes the chosen events as its input. Timer durations, the channel buffer size and the publish error, which the loop drops, are not modelled. A negative `maxBatch` makes `make` panic; the model requires `maxBatch >= 0`.
- Publisher.Invoke: the connection, codec registration and transport are left out. The JSON codec is a marshal/decode parameter pair, and the round trip is stated only for what those parameters return.
- IngestHttp.TrimSpace: only ASCII white space is trimmed. Go's `strings.TrimSpace` also trims Unicode spaces.
- IngestHttp.HttpIngest.Handle: the `/healthz` and `/readyz` routes, server start-up and shutdown are left out. JSON decoding is a parameter, and the handler requires it to yield no more items than the body has bytes.
- IngestHttp.ReadBody: the code silently truncates a body over 10 MiB and then decodes the truncated bytes. The model follows the code, not a rejection of oversized bodies.
- RFC 3339 formatting is a parameter. The flow's direction and drop reason are modelled as the strings their `String()` methods return.
- The plugin `toItem` and `resultSeverity` in plugins/kubearmor/types.go are identical to the adapter's, on other types. KubeArmor.ToItem and KubeArmor.ResultSeverity model both.
- The KubeArmor and Hubble observer clients (streams, reconnects, the legacy per-flow `report.Update` and its `Summary.Fail++`) are left out, apart from the two flow filters.
- Hubble.MapperPropertiesMeaning, Hubble.ToItem, HubbleAdapter.Destination: a ping flow without IP data makes the code dereference nil. The model requires `IpReadable`.
- Hubble.ToItem, HubbleAdapter.ToItem: a flow without a source endpoint makes the code dereference nil. The model requires a source.
- Api.ItemFor, IngestService.IngestServer.PushItems, IngestHttp.HttpIngest.Handle: the model uses one eleven-field result for every revision, the field set of shared/types/common.go and the policy-report result. The ingest path's pkg/api/types.go:32-37 result has only Source, Policy, Rule and Properties. So a result decoded from the wire there drops every other field, and the model does not capture that loss.
- The repeat count after k submissions of one slot is k-1, with no count after the first. The model follows the code.

## Findings

| source | as written | input that shows it | evidently intended | confidence | as-written member | corrected member |
|---|---|---|---|---|---|---|
| pkg/report/report.go:192-209 | `mergeProperties` writes into the stored result's property map, which is nil when the result was stored without properties (the empty map is dropped by `omitempty` and reads back as nil) | a result with no properties submitted twice for the same pod: the second `addResult` assigns into a nil map and panics | the merge starts from an empty map, so the second submission stores `count` 1 | not executed | Merge.NilPropertiesPanicOnResubmission | Merge.MergePropertiesMeaning |
| pkg/hubble/client.go:127-129 | the legacy `ignoreFlow` returns true for a non-nil TCP or ICMPv4 flow, so the caller at line 110 drops exactly the flows the mapper knows how to describe | a TCP flow to port 80 with a destination name is dropped; a nil flow is passed on and dereferenced at line 111 | drop nil flows and flows that are neither TCP nor ICMPv4, as the adapter's filter does | not executed | Hubble.LegacyFilterInverted | HubbleAdapter.FilterKeepsNameableFlows |
