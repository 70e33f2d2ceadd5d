/** The aggregate merge engine's folding rules, as functions on values:
    how one result is folded into a report's result list (addResult), how
    the property maps of two results for the same slot are merged
    (mergeProperties), and the older replace-only rule of the KubeArmor and
    Hubble mappers. The in-place methods in module Report are proved
    against these functions. */
module Merge {
  import opened Api
  import opened Decimal

  /** The property that counts repeated submissions of one slot. */
  const CountKey: string := "count"

  /** The old counter as strconv.Atoi reads it; missing or unparsable is 0. */
  function ParseCount(props: map<string, string>): (c: int)
    ensures IsInt64(c)
    ensures CountKey !in props ==> c == 0
  {
    match ParseInt(Lookup(props, CountKey))
    case Some(v) => v
    case None => 0
  }

  /** Go's `cnt++` on a 64-bit int, which wraps at the top. */
  function Increment(c: int): (n: int)
    requires IsInt64(c)
    ensures IsInt64(n)
  {
    if c == MaxInt64 then MinInt64 else c + 1
  }

  /** mergeProperties: the incoming map overwrites the stored one key by key,
      the counter is the stored one plus one, and a non-empty stored
      creation time survives. A nil stored map is treated as empty (see
      MergePropertiesAsWritten for the code as written). */
  function MergeProperties(stored: map<string, string>, incoming: map<string, string>): map<string, string> {
    var cnt := Increment(ParseCount(stored));
    var created := Lookup(stored, PropertyCreated);
    var copied := stored + incoming;
    var counted := copied[CountKey := FormatInt(cnt)];
    if created != "" then counted[PropertyCreated := created] else counted
  }

  /** What the merged map holds: every key of either side and the counter;
      the counter is the stored one plus one; an incoming property wins over
      a stored one; a non-empty stored creation time survives, and otherwise
      the incoming one (if any) is taken. */
  lemma MergePropertiesMeaning(stored: map<string, string>, incoming: map<string, string>)
    ensures var m := MergeProperties(stored, incoming);
      && m.Keys == stored.Keys + incoming.Keys + {CountKey}
      && m[CountKey] == FormatInt(Increment(ParseCount(stored)))
      && (forall k :: k in incoming && k != CountKey && k != PropertyCreated ==> m[k] == incoming[k])
      && (forall k :: k in stored && k !in incoming && k != CountKey && k != PropertyCreated ==> m[k] == stored[k])
      && (Lookup(stored, PropertyCreated) != "" ==> m[PropertyCreated] == stored[PropertyCreated])
      && (Lookup(stored, PropertyCreated) == "" ==> Lookup(m, PropertyCreated) == Lookup(incoming, PropertyCreated))
  {
    PropertyKeysDistinct();
  }

  /** The result written into a matching slot: the incoming result with the
      merged properties. */
  function MergeInto(stored: ReportResult, incoming: ReportResult): ReportResult {
    incoming.(properties := MergeProperties(stored.properties, incoming.properties))
  }

  /** cur is r with properties that still hold every non-counter,
      non-creation property of r. */
  predicate Carries(cur: ReportResult, r: ReportResult) {
    && cur.(properties := r.properties) == r
    && r.properties.Keys <= cur.properties.Keys
    && forall k :: k in r.properties && k != CountKey && k != PropertyCreated ==> cur.properties[k] == r.properties[k]
  }

  /** The state of addResult's loop after it has visited rs: the rewritten
      results and the value its `result` variable then holds (each match
      rewrites that variable's properties, and later matches merge into it). */
  function Scan(rs: seq<ReportResult>, r: ReportResult): (p: (seq<ReportResult>, ReportResult))
    ensures |p.0| == |rs|
    ensures Carries(p.1, r)
    decreases |rs|
  {
    if rs == [] then ([], r)
    else
      var prev := Scan(rs[..|rs| - 1], r);
      var x := rs[|rs| - 1];
      if SameSlot(x, prev.1) then
        var m := MergeInto(x, prev.1);
        (prev.0 + [m], m)
      else (prev.0 + [x], prev.1)
  }

  predicate HasSlot(rs: seq<ReportResult>, r: ReportResult) {
    exists i :: 0 <= i < |rs| && SameSlot(rs[i], r)
  }

  predicate UniqueSlots(rs: seq<ReportResult>) {
    forall i, j :: 0 <= i < j < |rs| ==> !SameSlot(rs[i], rs[j])
  }

  /** addResult's effect on the result list. */
  function AddResultSpec(rs: seq<ReportResult>, r: ReportResult): seq<ReportResult> {
    if HasSlot(rs, r) then Scan(rs, r).0 else rs + [r]
  }

  lemma {:induction false} ScanUnmatched(rs: seq<ReportResult>, r: ReportResult, j: int)
    requires 0 <= j < |rs| && !SameSlot(rs[j], r)
    ensures Scan(rs, r).0[j] == rs[j]
    decreases |rs|
  {
    var init := rs[..|rs| - 1];
    if j < |rs| - 1 {
      ScanUnmatched(init, r, j);
    }
  }

  lemma {:induction false} ScanMatched(rs: seq<ReportResult>, r: ReportResult, j: int)
    requires 0 <= j < |rs| && SameSlot(rs[j], r)
    ensures var out := Scan(rs, r).0[j];
      && Carries(out, r)
      && out.properties.Keys >= rs[j].properties.Keys + {CountKey}
      && Lookup(out.properties, CountKey) == FormatInt(Increment(ParseCount(rs[j].properties)))
      && (Lookup(rs[j].properties, PropertyCreated) != "" ==>
            Lookup(out.properties, PropertyCreated) == rs[j].properties[PropertyCreated])
    decreases |rs|
  {
    var init := rs[..|rs| - 1];
    if j < |rs| - 1 {
      ScanMatched(init, r, j);
    } else {
      var prev := Scan(init, r);
      assert SameSlot(rs[j], prev.1);
      assert Scan(rs, r).0[j] == MergeInto(rs[j], prev.1);
      MergeCarries(rs[j], prev.1, r);
    }
  }

  /** Merging a stored entry into a value that carries r yields one that
      still carries r, keeps the stored keys, counts one more, and keeps a
      stored creation time. */
  lemma MergeCarries(x: ReportResult, cur: ReportResult, r: ReportResult)
    requires Carries(cur, r)
    ensures var out := MergeInto(x, cur);
      && Carries(out, r)
      && out.properties.Keys >= x.properties.Keys + {CountKey}
      && Lookup(out.properties, CountKey) == FormatInt(Increment(ParseCount(x.properties)))
      && (Lookup(x.properties, PropertyCreated) != "" ==>
            Lookup(out.properties, PropertyCreated) == x.properties[PropertyCreated])
  {
    MergePropertiesMeaning(x.properties, cur.properties);
  }

  /** One more step of addResult's loop, whose list is the rewritten prefix
      followed by the untouched rest. */
  lemma ScanStep(rs: seq<ReportResult>, r: ReportResult, i: int)
    requires 0 <= i < |rs|
    ensures var prev := Scan(rs[..i], r);
      var next := Scan(rs[..i + 1], r);
      && (prev.0 + rs[i..])[i] == rs[i]
      && (SameSlot(rs[i], prev.1) ==>
            next.1 == MergeInto(rs[i], prev.1) && next.0 + rs[i + 1..] == (prev.0 + rs[i..])[i := next.1])
      && (!SameSlot(rs[i], prev.1) ==> next == (prev.0 + [rs[i]], prev.1) && next.0 + rs[i + 1..] == prev.0 + rs[i..])
  {
    var prev := Scan(rs[..i], r);
    ScanUnfold(rs, r, i);
    assert rs[i..] == [rs[i]] + rs[i + 1..];
    if SameSlot(rs[i], prev.1) {
      var m := MergeInto(rs[i], prev.1);
      assert (prev.0 + rs[i..])[i := m] == prev.0 + [m] + rs[i + 1..];
    }
  }

  /** Scan of one more element, unfolded once. */
  lemma ScanUnfold(rs: seq<ReportResult>, r: ReportResult, i: int)
    requires 0 <= i < |rs|
    ensures var prev := Scan(rs[..i], r);
      Scan(rs[..i + 1], r) ==
        if SameSlot(rs[i], prev.1) then (prev.0 + [MergeInto(rs[i], prev.1)], MergeInto(rs[i], prev.1))
        else (prev.0 + [rs[i]], prev.1)
  {
    assert rs[..i + 1][..i] == rs[..i];
  }

  /** One more element examined: a slot of r is found in it or before it. */
  lemma HasSlotStep(rs: seq<ReportResult>, r: ReportResult, i: int)
    requires 0 <= i < |rs|
    ensures HasSlot(rs[..i + 1], r) <==> HasSlot(rs[..i], r) || SameSlot(rs[i], r)
  {
    if HasSlot(rs[..i], r) {
      var j :| 0 <= j < i && SameSlot(rs[..i][j], r);
      assert rs[..i + 1][j] == rs[..i][j];
    }
    if HasSlot(rs[..i + 1], r) {
      var j :| 0 <= j < i + 1 && SameSlot(rs[..i + 1][j], r);
      if j < i { assert rs[..i][j] == rs[..i + 1][j]; }
    }
  }

  /** No slot of r in rs: the loop rewrites nothing. */
  lemma {:induction false} ScanNoMatch(rs: seq<ReportResult>, r: ReportResult)
    requires !HasSlot(rs, r)
    ensures Scan(rs, r) == (rs, r)
    decreases |rs|
  {
    if rs != [] {
      var init := rs[..|rs| - 1];
      forall i | 0 <= i < |init|
        ensures !SameSlot(init[i], r)
      {
        assert init[i] == rs[i];
      }
      ScanNoMatch(init, r);
      assert !SameSlot(rs[|rs| - 1], r);
      assert init + [rs[|rs| - 1]] == rs;
    }
  }

  /** With exactly one matching index j, the loop rewrites exactly that one. */
  lemma {:induction false} ScanSingleMatch(rs: seq<ReportResult>, r: ReportResult, j: int, n: int)
    requires 0 <= j < n <= |rs| && SameSlot(rs[j], r)
    requires forall i :: 0 <= i < |rs| && i != j ==> !SameSlot(rs[i], r)
    ensures Scan(rs[..n], r) == (rs[..n][j := MergeInto(rs[j], r)], MergeInto(rs[j], r))
    decreases n
  {
    if n == j + 1 {
      ScanFirstMatch(rs, r, j);
    } else {
      ScanSingleMatch(rs, r, j, n - 1);
      ScanPastMatch(rs, r, j, n);
    }
  }

  /** The loop up to and including the first match rewrites just that one. */
  lemma ScanFirstMatch(rs: seq<ReportResult>, r: ReportResult, j: int)
    requires 0 <= j < |rs| && SameSlot(rs[j], r)
    requires forall i :: 0 <= i < j ==> !SameSlot(rs[i], r)
    ensures Scan(rs[..j + 1], r) == (rs[..j + 1][j := MergeInto(rs[j], r)], MergeInto(rs[j], r))
  {
    var m := MergeInto(rs[j], r);
    assert rs[..j + 1][..j] == rs[..j];
    forall i | 0 <= i < j
      ensures !SameSlot(rs[..j][i], r)
    {
      assert rs[..j][i] == rs[i];
    }
    ScanNoMatch(rs[..j], r);
    assert rs[..j + 1][j := m] == rs[..j] + [m];
  }

  /** A non-matching element after the match is copied through. */
  lemma ScanPastMatch(rs: seq<ReportResult>, r: ReportResult, j: int, n: int)
    requires 0 <= j < n - 1 && n <= |rs| && !SameSlot(rs[n - 1], r)
    requires Scan(rs[..n - 1], r) == (rs[..n - 1][j := MergeInto(rs[j], r)], MergeInto(rs[j], r))
    ensures Scan(rs[..n], r) == (rs[..n][j := MergeInto(rs[j], r)], MergeInto(rs[j], r))
  {
    var m := MergeInto(rs[j], r);
    assert rs[..n][..n - 1] == rs[..n - 1];
    assert !SameSlot(rs[n - 1], m);
    assert rs[..n][j := m] == rs[..n - 1][j := m] + [rs[n - 1]];
  }

  /** addResult on a new slot appends the result unchanged at the end. */
  lemma AddResultAppendsNewSlot(rs: seq<ReportResult>, r: ReportResult)
    requires !HasSlot(rs, r)
    ensures |AddResultSpec(rs, r)| == |rs| + 1
    ensures AddResultSpec(rs, r)[..|rs|] == rs && AddResultSpec(rs, r)[|rs|] == r
  {
  }

  /** addResult on an existing slot keeps the length, rewrites every
      matching index with the incoming result (merged properties: counter
      bumped, stored creation time kept) and leaves every other index as
      it was. */
  lemma AddResultOverwritesSlot(rs: seq<ReportResult>, r: ReportResult)
    requires HasSlot(rs, r)
    ensures |AddResultSpec(rs, r)| == |rs|
    ensures forall j :: 0 <= j < |rs| && !SameSlot(rs[j], r) ==> AddResultSpec(rs, r)[j] == rs[j]
    ensures forall j :: 0 <= j < |rs| && SameSlot(rs[j], r) ==>
      && Carries(AddResultSpec(rs, r)[j], r)
      && Lookup(AddResultSpec(rs, r)[j].properties, CountKey) == FormatInt(Increment(ParseCount(rs[j].properties)))
      && (Lookup(rs[j].properties, PropertyCreated) != "" ==>
            Lookup(AddResultSpec(rs, r)[j].properties, PropertyCreated) == rs[j].properties[PropertyCreated])
  {
    forall j | 0 <= j < |rs| && !SameSlot(rs[j], r)
      ensures AddResultSpec(rs, r)[j] == rs[j]
    {
      ScanUnmatched(rs, r, j);
    }
    forall j | 0 <= j < |rs| && SameSlot(rs[j], r)
      ensures Carries(AddResultSpec(rs, r)[j], r)
      ensures Lookup(AddResultSpec(rs, r)[j].properties, CountKey) == FormatInt(Increment(ParseCount(rs[j].properties)))
      ensures Lookup(rs[j].properties, PropertyCreated) != "" ==>
        Lookup(AddResultSpec(rs, r)[j].properties, PropertyCreated) == rs[j].properties[PropertyCreated]
    {
      ScanMatched(rs, r, j);
    }
  }

  /** When slots are unique, addResult on an existing slot is exactly "merge
      into that one index". */
  lemma AddResultUniqueMerge(rs: seq<ReportResult>, r: ReportResult, j: int)
    requires UniqueSlots(rs) && 0 <= j < |rs| && SameSlot(rs[j], r)
    ensures AddResultSpec(rs, r) == rs[j := MergeInto(rs[j], r)]
  {
    forall i | 0 <= i < |rs| && i != j
      ensures !SameSlot(rs[i], r)
    {
      if i < j { assert !SameSlot(rs[i], rs[j]); } else { assert !SameSlot(rs[j], rs[i]); }
    }
    ScanSingleMatch(rs, r, j, |rs|);
    assert rs[..|rs|] == rs;
  }

  /** addResult never creates a second entry for a slot. */
  lemma AddResultKeepsSlotsUnique(rs: seq<ReportResult>, r: ReportResult)
    requires UniqueSlots(rs)
    ensures UniqueSlots(AddResultSpec(rs, r))
  {
    var out := AddResultSpec(rs, r);
    if HasSlot(rs, r) {
      forall j | 0 <= j < |rs|
        ensures SameSlot(out[j], rs[j]) && SameSlot(rs[j], out[j])
      {
        if SameSlot(rs[j], r) { ScanMatched(rs, r, j); } else { ScanUnmatched(rs, r, j); }
      }
    }
  }

  /** Feeding a sequence of results to addResult one after the other. */
  function SubmitAll(rs: seq<ReportResult>, subs: seq<ReportResult>): seq<ReportResult>
    decreases |subs|
  {
    if subs == [] then rs else AddResultSpec(SubmitAll(rs, subs[..|subs| - 1]), subs[|subs| - 1])
  }

  /** Re-submitting the slot of the last entry merges into that entry. */
  lemma MergeIntoLast(rs: seq<ReportResult>, x: ReportResult, r: ReportResult)
    requires UniqueSlots(rs) && !HasSlot(rs, x) && SameSlot(x, r)
    ensures AddResultSpec(rs + [x], r) == rs + [MergeInto(x, r)]
  {
    var prev := rs + [x];
    forall i, j | 0 <= i < j < |prev|
      ensures !SameSlot(prev[i], prev[j])
    {
      assert prev[i] == rs[i];
      if j < |rs| { assert prev[j] == rs[j]; }
    }
    AddResultUniqueMerge(prev, r, |rs|);
    assert prev[|rs| := MergeInto(x, r)] == rs + [MergeInto(x, r)];
  }

  /** One more merge turns counter n-2 (or no counter) into n-1. */
  lemma CounterStep(stored: map<string, string>, incoming: map<string, string>, n: int)
    requires 2 <= n <= MaxInt64
    requires n == 2 ==> CountKey !in stored
    requires n > 2 ==> Lookup(stored, CountKey) == FormatInt(n - 2)
    ensures Lookup(MergeProperties(stored, incoming), CountKey) == FormatInt(n - 1)
  {
    if n > 2 {
      ParseFormat(n - 2);
    }
  }

  /** One more submission for the last entry's slot. */
  lemma RepeatedStep(rs: seq<ReportResult>, x: ReportResult, first: ReportResult, last: ReportResult, n: int)
    requires UniqueSlots(rs) && !HasSlot(rs, first) && SameSlot(x, first) && SameSlot(last, first)
    requires 2 <= n <= MaxInt64
    requires n == 2 ==> CountKey !in x.properties
    requires n > 2 ==> Lookup(x.properties, CountKey) == FormatInt(n - 2)
    requires Lookup(first.properties, PropertyCreated) != "" ==>
      Lookup(x.properties, PropertyCreated) == first.properties[PropertyCreated]
    ensures AddResultSpec(rs + [x], last) == rs + [MergeInto(x, last)]
    ensures MergeInto(x, last).(properties := last.properties) == last
    ensures Lookup(MergeInto(x, last).properties, CountKey) == FormatInt(n - 1)
    ensures Lookup(first.properties, PropertyCreated) != "" ==>
      Lookup(MergeInto(x, last).properties, PropertyCreated) == first.properties[PropertyCreated]
    ensures PropertyUpdated in last.properties ==>
      Lookup(MergeInto(x, last).properties, PropertyUpdated) == last.properties[PropertyUpdated]
  {
    MergeIntoLast(rs, x, last);
    CounterStep(x.properties, last.properties, n);
    PropertyKeysDistinct();
  }

  /** A run of submissions for one slot, none carrying its own counter. */
  predicate OneSlotRun(subs: seq<ReportResult>) {
    forall i :: 0 <= i < |subs| ==> SameSlot(subs[i], subs[0]) && CountKey !in subs[i].properties
  }

  /** What the entry for a slot holds after the run subs: the content of the
      latest submission, the creation time of the first, a counter of one
      less than the number of submissions (none after the first), and the
      latest update time. */
  predicate EntryAfterRun(x: ReportResult, subs: seq<ReportResult>)
    requires |subs| >= 1
  {
    var last := subs[|subs| - 1];
    && x.(properties := last.properties) == last
    && (|subs| == 1 ==> x == subs[0])
    && (|subs| >= 2 ==> Lookup(x.properties, CountKey) == FormatInt(|subs| - 1))
    && (Lookup(subs[0].properties, PropertyCreated) != "" ==>
          Lookup(x.properties, PropertyCreated) == subs[0].properties[PropertyCreated])
    && (PropertyUpdated in last.properties ==>
          Lookup(x.properties, PropertyUpdated) == last.properties[PropertyUpdated])
  }

  /** Repeated submissions for one new slot leave one entry, at the end,
      as EntryAfterRun describes (the first insertion carries no counter;
      the first merge writes "1"). */
  lemma {:induction false} RepeatedSubmissions(rs: seq<ReportResult>, subs: seq<ReportResult>)
    requires UniqueSlots(rs) && 1 <= |subs| <= MaxInt64 && OneSlotRun(subs)
    requires !HasSlot(rs, subs[0])
    ensures var out := SubmitAll(rs, subs);
      |out| == |rs| + 1 && out[..|rs|] == rs && EntryAfterRun(out[|rs|], subs)
    decreases |subs|
  {
    var n := |subs|;
    if n == 1 {
      assert subs[..0] == [];
      AddResultAppendsNewSlot(rs, subs[0]);
    } else {
      var init := subs[..n - 1];
      assert init[0] == subs[0];
      forall i | 0 <= i < |init|
        ensures SameSlot(init[i], init[0]) && CountKey !in init[i].properties
      {
        assert init[i] == subs[i];
      }
      RepeatedSubmissions(rs, init);
      var prev := SubmitAll(rs, init);
      var x := prev[|rs|];
      assert prev == rs + [x];
      RunExtends(rs, subs, x);
      assert SubmitAll(rs, subs) == AddResultSpec(prev, subs[n - 1]);
    }
  }

  /** The entry after all but the last submission of a run, merged with the
      last, is the entry after the whole run. */
  lemma RunExtends(rs: seq<ReportResult>, subs: seq<ReportResult>, x: ReportResult)
    requires UniqueSlots(rs) && 2 <= |subs| <= MaxInt64 && OneSlotRun(subs)
    requires !HasSlot(rs, subs[0]) && EntryAfterRun(x, subs[..|subs| - 1])
    ensures AddResultSpec(rs + [x], subs[|subs| - 1]) == rs + [MergeInto(x, subs[|subs| - 1])]
    ensures EntryAfterRun(MergeInto(x, subs[|subs| - 1]), subs)
  {
    var n := |subs|;
    var init := subs[..n - 1];
    assert init[0] == subs[0] && init[n - 2] == subs[n - 2];
    assert SameSlot(x, init[n - 2]);
    RepeatedStep(rs, x, subs[0], subs[n - 1], n);
  }

  /** Two results that differ only in Rule occupy two slots. */
  lemma DistinctRulesKeepTwoSlots(rs: seq<ReportResult>, a: ReportResult, b: ReportResult)
    requires !HasSlot(rs, a) && !HasSlot(rs, b)
    requires a.source == b.source && a.policy == b.policy && a.rule != b.rule
    ensures SubmitAll(rs, [a, b]) == rs + [a, b]
  {
    assert [a, b][..1] == [a];
    assert [a][..0] == [];
    assert SubmitAll(rs, [a]) == rs + [a];
    forall i | 0 <= i < |rs| + 1
      ensures !SameSlot((rs + [a])[i], b)
    {
      if i < |rs| { assert (rs + [a])[i] == rs[i]; }
    }
    assert AddResultSpec(rs + [a], b) == rs + [a] + [b];
  }

  // ---- Finding: the stored map may be nil --------------------------------

  /** A Go map value, which may be nil. */
  datatype GoMap = NilMap | MapValue(entries: map<string, string>)

  /** What a reload from the store yields for a stored properties map: the
      schema field is `omitempty`, so an empty map is dropped on write and
      decodes as nil. */
  function Reloaded(m: map<string, string>): (g: GoMap)
    ensures g.NilMap? <==> m == map[]
    ensures g.MapValue? ==> g.entries == m
  {
    if m == map[] then NilMap else MapValue(m)
  }

  function Entries(g: GoMap): map<string, string> {
    match g
    case NilMap => map[]
    case MapValue(m) => m
  }

  /** mergeProperties as written: with a nil stored map the write of the
      counter (and, before it, maps.Copy of a non-empty incoming map)
      assigns into a nil map, which panics (None). */
  function MergePropertiesAsWritten(stored: GoMap, incoming: GoMap): (r: Option<map<string, string>>)
    ensures r.None? <==> stored.NilMap?
    ensures stored.MapValue? ==> r == Some(MergeProperties(stored.entries, Entries(incoming)))
  {
    match stored
    case NilMap => None
    case MapValue(m) => Some(MergeProperties(m, Entries(incoming)))
  }

  /** A result submitted with no properties is stored with none, reloads
      with a nil map, and its second submission makes mergeProperties
      panic; the corrected merge (nil read as empty) gives counter "1". */
  lemma NilPropertiesPanicOnResubmission(r: ReportResult)
    requires r.properties == map[]
    ensures AddResultSpec([], r) == [r]
    ensures MergePropertiesAsWritten(Reloaded(r.properties), MapValue(r.properties)) == None
    ensures MergeProperties(Entries(Reloaded(r.properties)), r.properties) == map[CountKey := "1"]
  {
    var m := MergeProperties(map[], map[]);
    assert m.Keys == {CountKey};
    assert m[CountKey] == FormatInt(1);
    assert FormatInt(1) == "1";
  }

  // ---- The replace-only rule of the older mappers ------------------------

  /** The older mappers key a result by (Source, Policy) only. */
  predicate SamePolicy(a: ReportResult, b: ReportResult) {
    a.source == b.source && a.policy == b.policy
  }

  predicate HasPolicy(rs: seq<ReportResult>, pr: ReportResult) {
    exists i :: 0 <= i < |rs| && SamePolicy(rs[i], pr)
  }

  /** Replace every entry with pr's (Source, Policy) by pr, wholesale; append
      pr when there is none. */
  function ReplaceByPolicy(rs: seq<ReportResult>, pr: ReportResult): (out: seq<ReportResult>)
    ensures HasPolicy(rs, pr) ==> |out| == |rs|
    ensures !HasPolicy(rs, pr) ==> |out| == |rs| + 1 && out[|rs|] == pr
    ensures forall j :: 0 <= j < |rs| && SamePolicy(rs[j], pr) ==> out[j] == pr
    ensures forall j :: 0 <= j < |rs| && !SamePolicy(rs[j], pr) ==> out[j] == rs[j]
    ensures pr in out
  {
    var replaced := seq(|rs|, j requires 0 <= j < |rs| => if SamePolicy(rs[j], pr) then pr else rs[j]);
    if HasPolicy(rs, pr) then replaced else replaced + [pr]
  }

  /** Replacing twice with the same result is the same as replacing once:
      the replace-only rule absorbs redelivery. */
  lemma ReplaceByPolicyIdempotent(rs: seq<ReportResult>, pr: ReportResult)
    ensures ReplaceByPolicy(ReplaceByPolicy(rs, pr), pr) == ReplaceByPolicy(rs, pr)
  {
    var once := ReplaceByPolicy(rs, pr);
    assert HasPolicy(once, pr) by {
      var i :| 0 <= i < |once| && once[i] == pr;
    }
  }

  /** Of two results for the same (Source, Policy), the later one is all
      that the replace-only rule leaves: the first leaves no trace. */
  lemma ReplaceByPolicyLastWins(rs: seq<ReportResult>, a: ReportResult, b: ReportResult)
    requires SamePolicy(a, b)
    ensures ReplaceByPolicy(ReplaceByPolicy(rs, a), b) == ReplaceByPolicy(rs, b)
  {
    var once := ReplaceByPolicy(rs, a);
    assert HasPolicy(once, b) by {
      var i :| 0 <= i < |once| && once[i] == a;
      assert SamePolicy(once[i], b);
    }
    assert HasPolicy(rs, a) <==> HasPolicy(rs, b) by {
      if HasPolicy(rs, a) {
        var i :| 0 <= i < |rs| && SamePolicy(rs[i], a);
        assert SamePolicy(rs[i], b);
      }
      if HasPolicy(rs, b) {
        var i :| 0 <= i < |rs| && SamePolicy(rs[i], b);
        assert SamePolicy(rs[i], a);
      }
    }
  }

  /** Unlike addResult, the replace-only rule ignores Rule: a second result
      that differs only in Rule replaces the first. */
  lemma ReplaceByPolicyIgnoresRule(rs: seq<ReportResult>, a: ReportResult, b: ReportResult)
    requires !HasPolicy(rs, a)
    requires a.source == b.source && a.policy == b.policy && a.rule != b.rule
    ensures ReplaceByPolicy(ReplaceByPolicy(rs, a), b) == rs + [b]
  {
    var once := ReplaceByPolicy(rs, a);
    assert once == rs + [a];
    assert HasPolicy(once, b) by { assert SamePolicy(once[|rs|], b); }
  }
}
