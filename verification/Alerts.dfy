/** internal/notify/helpers.go and format.go: what an alert shows of its failure details, and how the
    alerts of one flush are laid out in Slack attachments. */
module Alerts {
  import opened Sequences

  datatype Detail = Detail(resultType: string, sessions: int)

  /** An alert as the formatter sees it. The totals are those LogAlert computed. */
  datatype Alert = Alert(organization: string, failureCount: int, reportId: string, details: seq<Detail>,
                         totalCount: int, totalSessions: int)

  const MAX_FAILURE_DETAILS := 10
  const MAX_ALERT_DETAIL_DISPLAY := 3
  const MAX_POLICIES_PER_CHUNK := 3
  const MAX_ATTACHMENTS := 100
  const MAX_FIELDS := 10
  const POLICIES_IN_LAST_CHUNK_WITH_OVERFLOW := 2

  // ---- failure details ----

  function Sum(ds: seq<Detail>): int {
    if ds == [] then 0 else Sum(ds[..|ds| - 1]) + ds[|ds| - 1].sessions
  }

  ghost predicate Descending(ds: seq<Detail>) {
    forall i, j :: 0 <= i < j < |ds| ==> ds[i].sessions >= ds[j].sessions
  }

  /** `sorted` is some order of the details by descending count; the sort is not stable. */
  ghost predicate SortOf(sorted: seq<Detail>, ds: seq<Detail>) {
    Descending(sorted) && multiset(sorted) == multiset(ds)
  }

  function Take(ds: seq<Detail>, n: nat): seq<Detail> {
    if |ds| <= n then ds else ds[..n]
  }

  function Insert(ds: seq<Detail>, d: Detail): seq<Detail> {
    if ds == [] || ds[0].sessions < d.sessions then [d] + ds else [ds[0]] + Insert(ds[1..], d)
  }

  lemma {:induction false} InsertAdds(ds: seq<Detail>, d: Detail)
    ensures multiset(Insert(ds, d)) == multiset(ds) + multiset{d}
  {
    if ds != [] && ds[0].sessions >= d.sessions {
      InsertAdds(ds[1..], d);
      assert ds == [ds[0]] + ds[1..];
    }
  }

  lemma {:induction false} InsertKeepsOrder(ds: seq<Detail>, d: Detail)
    requires Descending(ds)
    ensures Descending(Insert(ds, d))
    ensures Insert(ds, d)[0] in [d] + ds
  {
    if ds != [] && ds[0].sessions >= d.sessions {
      var rest := Insert(ds[1..], d);
      InsertKeepsOrder(ds[1..], d);
      assert rest[0].sessions <= ds[0].sessions;
      assert Insert(ds, d) == [ds[0]] + rest;
    }
  }

  method SortFunc(ds: seq<Detail>) returns (sorted: seq<Detail>)
    ensures SortOf(sorted, ds)
  {
    sorted := [];
    for i := 0 to |ds|
      invariant SortOf(sorted, ds[..i])
    {
      InsertKeepsOrder(sorted, ds[i]);
      InsertAdds(sorted, ds[i]);
      sorted := Insert(sorted, ds[i]);
      assert ds[..i + 1] == ds[..i] + [ds[i]];
    }
    assert ds[..|ds|] == ds;
  }

  /** LogAlert: totals from the full slice, then sort and cap. */
  method LogAlert(alert: Alert) returns (logged: Alert)
    ensures exists sorted :: SortOf(sorted, alert.details) && logged.details == if |sorted| <= 10 then sorted else sorted[..10]
    ensures logged == alert.(details := logged.details, totalCount := |alert.details|, totalSessions := Sum(alert.details))
  {
    var totalCount, totalSessions := 0, 0;
    for i := 0 to |alert.details|
      invariant totalCount == i && totalSessions == Sum(alert.details[..i])
    {
      assert alert.details[..i + 1][..i] == alert.details[..i];
      totalCount := totalCount + 1;
      totalSessions := totalSessions + alert.details[i].sessions;
    }
    assert alert.details[..|alert.details|] == alert.details;
    var details := SortFunc(alert.details);
    assert SortOf(details, alert.details);
    if |details| > MAX_FAILURE_DETAILS {
      details := details[..MAX_FAILURE_DETAILS];
    }
    logged := alert.(details := details, totalCount := totalCount, totalSessions := totalSessions);
  }

  /** The text: the "Other n entries (m sessions total)" line, when there is one, and the entries shown. */
  datatype DetailsText = NoDetails | DetailsText(hasOther: bool, otherCount: int, otherSessions: int, shown: seq<Detail>)

  function Max(a: int, b: int): int {
    if a < b then b else a
  }

  function TextOf(a: Alert): DetailsText {
    if a.details == [] then NoDetails
    else
      var shown := Take(a.details, MAX_ALERT_DETAIL_DISPLAY);
      var count, sessions := Max(a.totalCount, |a.details|), Max(a.totalSessions, Sum(a.details));
      if count > 3 then DetailsText(true, count - 3, Max(sessions - Sum(shown), 0), shown)
      else DetailsText(false, 0, 0, shown)
  }

  method BuildFailureDetailsText(a: Alert) returns (text: DetailsText)
    ensures text == TextOf(a)
  {
    var details := a.details;
    if |details| == 0 {
      return NoDetails;
    }
    var shown := details;
    if |shown| > MAX_ALERT_DETAIL_DISPLAY {
      shown := shown[..MAX_ALERT_DETAIL_DISPLAY];
    }
    var detailsSessions := SumLoop(details);
    var totalCount := Max(a.totalCount, |details|);
    var totalSessions := Max(a.totalSessions, detailsSessions);
    if totalCount > MAX_ALERT_DETAIL_DISPLAY {
      var topSessions := SumLoop(shown);
      return DetailsText(true, totalCount - MAX_ALERT_DETAIL_DISPLAY, Max(totalSessions - topSessions, 0), shown);
    }
    return DetailsText(false, 0, 0, shown);
  }

  method SumLoop(ds: seq<Detail>) returns (total: int)
    ensures total == Sum(ds)
  {
    total := 0;
    for i := 0 to |ds|
      invariant total == Sum(ds[..i])
    {
      assert ds[..i + 1][..i] == ds[..i];
      total := total + ds[i].sessions;
    }
    assert ds[..|ds|] == ds;
  }

  /** What sorting, capping and displaying leave unshown never pulls the totals down. */
  predicate TailsNonNegative(sorted: seq<Detail>) {
    Sum(sorted) >= Sum(Take(sorted, MAX_ALERT_DETAIL_DISPLAY)) && Sum(sorted) >= Sum(Take(sorted, MAX_FAILURE_DETAILS))
  }

  /** From the parsed report to the text: entries are always conserved; sessions are conserved exactly when the
      entries past the third, and those past the tenth, do not sum to less than zero. */
  method ShowAlert(alert: Alert) returns (text: DetailsText, ghost sorted: seq<Detail>)
    ensures SortOf(sorted, alert.details)
    ensures text.NoDetails? <==> alert.details == []
    ensures text.DetailsText? ==> text.shown == if |sorted| <= 3 then sorted else sorted[..3]
    ensures text.DetailsText? ==> |text.shown| + text.otherCount == |alert.details|
    ensures text.DetailsText? ==> (text.hasOther <==> |alert.details| > 3)
    ensures text.DetailsText? ==> (Sum(text.shown) + text.otherSessions == Sum(alert.details) <==> TailsNonNegative(sorted))
  {
    var logged := LogAlert(alert);
    sorted :| SortOf(sorted, alert.details) && logged.details == if |sorted| <= 10 then sorted else sorted[..10];
    SumOfPermutation(sorted, alert.details);
    assert |sorted| == |multiset(sorted)| == |alert.details|;
    text := BuildFailureDetailsText(logged);
    assert Take(Take(sorted, 10), 3) == Take(sorted, 3);
  }

  function Without(ds: seq<Detail>, k: nat): seq<Detail>
    requires k < |ds|
  {
    ds[..k] + ds[k + 1..]
  }

  lemma SumWithout(ds: seq<Detail>, k: nat)
    requires k < |ds|
    ensures Sum(ds) == Sum(Without(ds, k)) + ds[k].sessions
  {
    SplitAt(ds, k);
    SumMiddle(ds[..k], ds[k], ds[k + 1..]);
  }

  lemma {:induction false} SumMiddle(front: seq<Detail>, d: Detail, back: seq<Detail>)
    ensures Sum(front + [d] + back) == Sum(front + back) + d.sessions
    decreases |back|
  {
    if back == [] {
      assert front + [d] + back == front + [d] && front + back == front;
      assert (front + [d])[..|front|] == front;
    } else {
      var init, last := back[..|back| - 1], back[|back| - 1];
      SumMiddle(front, d, init);
      assert (front + [d] + back)[..|front| + |back|] == front + [d] + init;
      assert (front + back)[..|front| + |back| - 1] == front + init;
    }
  }

  lemma CountWithout(ds: seq<Detail>, k: nat)
    requires k < |ds|
    ensures multiset(ds) - multiset{ds[k]} == multiset(Without(ds, k))
  {
    assert ds == ds[..k] + ([ds[k]] + ds[k + 1..]);
    assert multiset(ds) == multiset(ds[..k]) + (multiset{ds[k]} + multiset(ds[k + 1..]));
  }

  lemma {:induction false} SumOfPermutation(a: seq<Detail>, b: seq<Detail>)
    requires multiset(a) == multiset(b)
    ensures Sum(a) == Sum(b)
    decreases |a|
  {
    if a == [] {
      assert |multiset(b)| == 0;
    } else {
      assert a[0] in multiset(b);
      var k :| 0 <= k < |b| && b[k] == a[0];
      SumWithout(a, 0);
      SumWithout(b, k);
      CountWithout(a, 0);
      CountWithout(b, k);
      SumOfPermutation(Without(a, 0), Without(b, k));
    }
  }

  /** The displayed entries are the largest: nothing left out exceeds anything shown. */
  lemma ShownAreLargest(sorted: seq<Detail>, ds: seq<Detail>)
    requires SortOf(sorted, ds)
    ensures var shown := Take(sorted, MAX_ALERT_DETAIL_DISPLAY);
      && multiset(shown) <= multiset(ds)
      && forall d, e :: d in shown && e in multiset(ds) - multiset(shown) ==> e.sessions <= d.sessions
  {
    var shown, rest := Take(sorted, 3), if |sorted| <= 3 then [] else sorted[3..];
    assert sorted == shown + rest;
    assert multiset(ds) == multiset(shown) + multiset(rest);
    forall d, e | d in shown && e in multiset(ds) - multiset(shown) ensures e.sessions <= d.sessions {
      assert e in multiset(rest);
      var i :| 0 <= i < |shown| && shown[i] == d;
      var j :| 0 <= j < |rest| && rest[j] == e;
      assert sorted[i] == d && sorted[3 + j] == e;
    }
  }

  /** Non-negative counts always conserve the sessions. */
  lemma CountsConserve(sorted: seq<Detail>)
    requires forall d :: d in sorted ==> d.sessions >= 0
    ensures TailsNonNegative(sorted)
  {
    TailSum(sorted, MAX_ALERT_DETAIL_DISPLAY);
    TailSum(sorted, MAX_FAILURE_DETAILS);
  }

  lemma {:induction false} TailSum(ds: seq<Detail>, n: nat)
    requires forall d :: d in ds ==> d.sessions >= 0
    ensures Sum(Take(ds, n)) <= Sum(ds)
  {
    if |ds| > n {
      var init := ds[..|ds| - 1];
      TailSum(init, n);
      assert Take(init, n) == Take(ds, n);
      assert ds[|ds| - 1] in ds;
    }
  }

  /** A negative count, which the report parser lets through, can break the session total: of ten entries with one
      session and one with -1, nine sessions in all, the text shows three and seven more. */
  lemma NegativeCountBreaksTotals(a: Alert) returns (ds: seq<Detail>)
    ensures |ds| == 11 && SortOf(ds, ds) && Sum(ds) == 9
    ensures var text := TextOf(a.(details := Take(ds, MAX_FAILURE_DETAILS), totalCount := 11, totalSessions := Sum(ds)));
      text.DetailsText? && Sum(text.shown) == 3 && text.otherSessions == 7 && Sum(text.shown) + text.otherSessions != Sum(ds)
  {
    var ten := seq(10, i => Detail("r", 1));
    ds := ten + [Detail("r", -1)];
    assert ds[..10] == ten;
    SumOfOnes(ten, 10);
    SumOfOnes(ten, 3);
    assert ten[..10] == ten;
  }

  lemma {:induction false} SumOfOnes(ds: seq<Detail>, n: nat)
    requires n <= |ds| && forall d :: d in ds ==> d.sessions == 1
    ensures Sum(ds[..n]) == n
  {
    if n > 0 {
      SumOfOnes(ds, n - 1);
      assert ds[..n][..n - 1] == ds[..n - 1] && ds[n - 1] in ds;
    }
  }

  // ---- attachments ----

  datatype Field = PolicySummary(alert: Alert) | ReportId(id: string) | FailureDetails(alert: Alert)
                 | AdditionalPolicies(count: int, organizations: int, sessions: int) | RunId

  function FieldsOf(a: Alert): (fields: seq<Field>)
    ensures |fields| <= 3
  {
    [PolicySummary(a)] + (if a.reportId != "" then [ReportId(a.reportId)] else [])
    + if a.details != [] then [FailureDetails(a)] else []
  }

  function ChunkFields(chunk: seq<Alert>): seq<Field> {
    if chunk == [] then [] else ChunkFields(chunk[..|chunk| - 1]) + FieldsOf(chunk[|chunk| - 1])
  }

  function SessionSum(alerts: seq<Alert>): int {
    if alerts == [] then 0 else SessionSum(alerts[..|alerts| - 1]) + alerts[|alerts| - 1].failureCount
  }

  function ShownCount(n: nat): nat {
    if n > MAX_ATTACHMENTS * MAX_POLICIES_PER_CHUNK
    then (MAX_ATTACHMENTS - 1) * MAX_POLICIES_PER_CHUNK + POLICIES_IN_LAST_CHUNK_WITH_OVERFLOW
    else n
  }

  /** The end of the last attachment: the line for the alerts not shown, if any, and the run ID. */
  function Ending(notShown: nat, organizations: nat, sessions: int): seq<Field> {
    if notShown == 0 then [RunId] else [AdditionalPolicies(notShown, organizations, sessions), RunId]
  }

  function Tail(alerts: seq<Alert>): seq<Field> {
    var rest := alerts[ShownCount(|alerts|)..];
    Ending(|rest|, |Organizations(rest)|, SessionSum(rest))
  }

  function Organizations(alerts: seq<Alert>): set<string> {
    set a | a in alerts :: a.organization
  }

  function ChunkEnd(shown: seq<Alert>, i: nat): nat {
    if i + MAX_POLICIES_PER_CHUNK < |shown| then i + MAX_POLICIES_PER_CHUNK else |shown|
  }

  function LayoutFrom(shown: seq<Alert>, i: nat, tail: seq<Field>): seq<seq<Field>>
    decreases |shown| - i
  {
    if i >= |shown| then []
    else
      var end := ChunkEnd(shown, i);
      [ChunkFields(shown[i..end]) + if end == |shown| then tail else []] + LayoutFrom(shown, end, tail)
  }

  /** The whole message. */
  function Layout(alerts: seq<Alert>): seq<seq<Field>> {
    LayoutFrom(alerts[..ShownCount(|alerts|)], 0, Tail(alerts))
  }

  /** formatAlerts, with the texts of the fields left abstract. */
  method FormatAlerts(alerts: seq<Alert>) returns (attachments: seq<seq<Field>>)
    ensures attachments == Layout(alerts)
  {
    var maxPoliciesShown := MAX_ATTACHMENTS * MAX_POLICIES_PER_CHUNK;
    var shown, overflowAlerts := alerts, [];
    if |alerts| > maxPoliciesShown {
      var maxWithOverflow := (MAX_ATTACHMENTS - 1) * MAX_POLICIES_PER_CHUNK + POLICIES_IN_LAST_CHUNK_WITH_OVERFLOW;
      shown, overflowAlerts := alerts[..maxWithOverflow], alerts[maxWithOverflow..];
    }
    var tail := FormatTail(overflowAlerts);
    assert shown == alerts[..ShownCount(|alerts|)] && tail == Tail(alerts);
    attachments := FormatChunks(shown, tail);
  }

  method FormatTail(overflowAlerts: seq<Alert>) returns (tail: seq<Field>)
    ensures overflowAlerts == [] ==> tail == [RunId]
    ensures overflowAlerts != [] ==> 
              tail == [AdditionalPolicies(|overflowAlerts|, |Organizations(overflowAlerts)|, SessionSum(overflowAlerts)), RunId]
  {
    if |overflowAlerts| == 0 {
      return [RunId];
    }
    var overflowSessions := 0;
    for i := 0 to |overflowAlerts|
      invariant overflowSessions == SessionSum(overflowAlerts[..i])
    {
      assert overflowAlerts[..i + 1][..i] == overflowAlerts[..i];
      overflowSessions := overflowSessions + overflowAlerts[i].failureCount;
    }
    assert overflowAlerts[..|overflowAlerts|] == overflowAlerts;
    var organizations := UniqueOrgCount(overflowAlerts);
    return [AdditionalPolicies(|overflowAlerts|, organizations, overflowSessions), RunId];
  }

  method UniqueOrgCount(alerts: seq<Alert>) returns (count: nat)
    ensures count == |Organizations(alerts)|
  {
    var seen: set<string> := {};
    for i := 0 to |alerts|
      invariant seen == Organizations(alerts[..i])
    {
      assert alerts[..i + 1] == alerts[..i] + [alerts[i]];
      seen := seen + {alerts[i].organization};
    }
    assert alerts[..|alerts|] == alerts;
    return |seen|;
  }

  method FormatChunks(shown: seq<Alert>, tail: seq<Field>) returns (attachments: seq<seq<Field>>)
    ensures attachments == LayoutFrom(shown, 0, tail)
  {
    attachments := [];
    var i := 0;
    while i < |shown|
      invariant 0 <= i
      invariant attachments + LayoutFrom(shown, i, tail) == LayoutFrom(shown, 0, tail)
      decreases |shown| - i
    {
      var end := ChunkEnd(shown, i);
      var fields := FormatChunk(shown[i..end]);
      fields := fields + if end == |shown| then tail else [];
      assert attachments + ([fields] + LayoutFrom(shown, end, tail)) == attachments + [fields] + LayoutFrom(shown, end, tail);
      attachments := attachments + [fields];
      i := end;
    }
  }

  method FormatChunk(chunk: seq<Alert>) returns (fields: seq<Field>)
    ensures fields == ChunkFields(chunk)
  {
    fields := [];
    for k := 0 to |chunk|
      invariant fields == ChunkFields(chunk[..k])
    {
      assert chunk[..k + 1][..k] == chunk[..k];
      var a := chunk[k];
      var mine := [PolicySummary(a)];
      if a.reportId != "" {
        mine := mine + [ReportId(a.reportId)];
      }
      if a.details != [] {
        mine := mine + [FailureDetails(a)];
      }
      fields := fields + mine;
    }
    assert chunk[..|chunk|] == chunk;
  }

  // ---- layout properties ----

  function SummariesIn(fields: seq<Field>): seq<Alert> {
    if fields == [] then []
    else SummariesIn(fields[..|fields| - 1]) + if fields[|fields| - 1].PolicySummary? then [fields[|fields| - 1].alert] else []
  }

  lemma {:induction false} SummariesAppend(a: seq<Field>, b: seq<Field>)
    ensures SummariesIn(a + b) == SummariesIn(a) + SummariesIn(b)
  {
    if b == [] {
      assert a + b == a;
    } else {
      AppendLast(a, b);
      SummariesAppend(a, b[..|b| - 1]);
    }
  }

  lemma FieldsSummary(a: Alert)
    ensures SummariesIn(FieldsOf(a)) == [a]
  {
    var x, y, z := [PolicySummary(a)], if a.reportId != "" then [ReportId(a.reportId)] else [], if a.details != [] then [FailureDetails(a)] else [];
    assert x[..0] == [];
    assert y != [] ==> y[..0] == [];
    assert z != [] ==> z[..0] == [];
    SummariesAppend(x, y);
    SummariesAppend(x + y, z);
  }

  lemma {:induction false} ChunkHolds(chunk: seq<Alert>)
    ensures SummariesIn(ChunkFields(chunk)) == chunk
    ensures |ChunkFields(chunk)| <= 3 * |chunk|
  {
    if chunk != [] {
      var n := |chunk| - 1;
      ChunkHolds(chunk[..n]);
      FieldsSummary(chunk[n]);
      SummariesAppend(ChunkFields(chunk[..n]), FieldsOf(chunk[n]));
      assert chunk == chunk[..n] + [chunk[n]];
    }
  }

  /** The fields of a chunk never hold a run ID. */
  lemma {:induction false} ChunkHasNoRunId(chunk: seq<Alert>)
    ensures RunId !in ChunkFields(chunk)
  {
    if chunk != [] {
      ChunkHasNoRunId(chunk[..|chunk| - 1]);
    }
  }

  lemma TailHolds(alerts: seq<Alert>)
    ensures var t := Tail(alerts);
      && SummariesIn(t) == []
      && t != [] && t[|t| - 1] == RunId && RunId !in t[..|t| - 1]
      && (|t| == 1 || (|t| == 2 && ShownCount(|alerts|) % 3 == 2))
  {
    var rest := alerts[ShownCount(|alerts|)..];
    EndingHolds(|rest|, |Organizations(rest)|, SessionSum(rest));
  }

  lemma EndingHolds(notShown: nat, organizations: nat, sessions: int)
    ensures var t := Ending(notShown, organizations, sessions);
      && SummariesIn(t) == []
      && t[|t| - 1] == RunId && RunId !in t[..|t| - 1]
  {
    var t := Ending(notShown, organizations, sessions);
    assert SummariesIn([]) == [];
    if notShown == 0 {
      assert t[..0] == [];
    } else {
      assert t[..1] == [AdditionalPolicies(notShown, organizations, sessions)] && t[..1][..0] == [];
    }
  }

  /** Every shown alert appears once, in order. */
  lemma {:induction false} LayoutShows(shown: seq<Alert>, i: nat, tail: seq<Field>)
    requires i <= |shown| && SummariesIn(tail) == []
    ensures SummariesIn(Flatten(LayoutFrom(shown, i, tail))) == shown[i..]
    decreases |shown| - i
  {
    if i < |shown| {
      var end := ChunkEnd(shown, i);
      LayoutShows(shown, end, tail);
      ChunkHolds(shown[i..end]);
      var mine := if end == |shown| then tail else [];
      SummariesAppend(ChunkFields(shown[i..end]), mine);
      SummariesCons(ChunkFields(shown[i..end]) + mine, LayoutFrom(shown, end, tail));
      SplitTail(shown, i, end);
    }
  }

  lemma SplitTail(alerts: seq<Alert>, i: nat, end: nat)
    requires i <= end <= |alerts|
    ensures alerts[i..end] + [] + alerts[end..] == alerts[i..]
  {
  }

  lemma SummariesCons(first: seq<Field>, rest: seq<seq<Field>>)
    ensures SummariesIn(Flatten([first] + rest)) == SummariesIn(first) + SummariesIn(Flatten(rest))
  {
    FlattenCons(first, rest);
    SummariesAppend(first, Flatten(rest));
  }

  lemma {:induction false} LayoutCount(shown: seq<Alert>, i: nat, tail: seq<Field>)
    requires i <= |shown|
    ensures |LayoutFrom(shown, i, tail)| == (|shown| - i + 2) / 3
    decreases |shown| - i
  {
    if i < |shown| {
      LayoutCount(shown, ChunkEnd(shown, i), tail);
    }
  }

  ghost predicate FieldBudget(attachments: seq<seq<Field>>) {
    forall k :: 0 <= k < |attachments| ==> |attachments[k]| <= MAX_FIELDS
  }

  /** The last attachment alone carries the run ID, as its last field. */
  ghost predicate RunIdLast(attachments: seq<seq<Field>>) {
    && attachments != []
    && (forall k :: 0 <= k < |attachments| - 1 ==> RunId !in attachments[k])
    && var last := attachments[|attachments| - 1];
       last != [] && last[|last| - 1] == RunId && RunId !in last[..|last| - 1]
  }

  lemma {:induction false} LayoutBudget(shown: seq<Alert>, i: nat, tail: seq<Field>)
    requires i < |shown| && i % 3 == 0
    requires tail != [] && tail[|tail| - 1] == RunId && RunId !in tail[..|tail| - 1]
    requires |tail| == 1 || (|tail| == 2 && |shown| % 3 == 2)
    ensures FieldBudget(LayoutFrom(shown, i, tail)) && RunIdLast(LayoutFrom(shown, i, tail))
    decreases |shown| - i
  {
    var end := ChunkEnd(shown, i);
    var chunk := ChunkFields(shown[i..end]);
    ChunkHolds(shown[i..end]);
    ChunkHasNoRunId(shown[i..end]);
    if end == |shown| {
      RunIdEnds(chunk, tail);
      assert LayoutFrom(shown, i, tail) == [chunk + tail];
    } else {
      LayoutBudget(shown, end, tail);
      assert chunk + [] == chunk;
      RunIdStaysLast(chunk, LayoutFrom(shown, end, tail));
    }
  }

  lemma RunIdEnds(chunk: seq<Field>, tail: seq<Field>)
    requires RunId !in chunk && tail != [] && tail[|tail| - 1] == RunId && RunId !in tail[..|tail| - 1]
    ensures RunIdLast([chunk + tail])
  {
    var only := chunk + tail;
    assert only[..|only| - 1] == chunk + tail[..|tail| - 1];
  }

  lemma RunIdStaysLast(first: seq<Field>, rest: seq<seq<Field>>)
    requires RunId !in first && |first| <= MAX_FIELDS && FieldBudget(rest) && RunIdLast(rest)
    ensures FieldBudget([first] + rest) && RunIdLast([first] + rest)
  {
    assert ([first] + rest)[|rest|] == rest[|rest| - 1];
  }

  lemma {:induction false} SessionAppend(a: seq<Alert>, b: seq<Alert>)
    ensures SessionSum(a + b) == SessionSum(a) + SessionSum(b)
  {
    if b == [] {
      assert a + b == a;
    } else {
      AppendLast(a, b);
      SessionAppend(a, b[..|b| - 1]);
    }
  }

  /** Budget for every list of alerts: at most 100 attachments of at most 10 fields each, and the run ID in the
      last attachment alone. */
  lemma AlertBudget(alerts: seq<Alert>)
    requires alerts != []
    ensures |Layout(alerts)| <= 100 && RunIdLast(Layout(alerts))
    ensures forall k :: 0 <= k < |Layout(alerts)| ==> |Layout(alerts)[k]| <= 10
  {
    var shown, tail := alerts[..ShownCount(|alerts|)], Tail(alerts);
    TailHolds(alerts);
    LayoutCount(shown, 0, tail);
    LayoutBudget(shown, 0, tail);
  }

  /** The alerts a message shows. */
  function Shown(alerts: seq<Alert>): seq<Alert> {
    SummariesIn(Flatten(Layout(alerts)))
  }

  lemma ShownIsPrefix(alerts: seq<Alert>)
    ensures Shown(alerts) == alerts[..ShownCount(|alerts|)]
  {
    TailHolds(alerts);
    LayoutShows(alerts[..ShownCount(|alerts|)], 0, Tail(alerts));
  }

  lemma SessionOfOne(a: Alert)
    ensures SessionSum([a]) == a.failureCount
  {
    assert [a][..0] == [];
  }

  lemma {:induction false} ChunkAppend(a: seq<Alert>, b: seq<Alert>)
    ensures ChunkFields(a + b) == ChunkFields(a) + ChunkFields(b)
  {
    if b == [] {
      assert a + b == a;
    } else {
      AppendLast(a, b);
      ChunkAppend(a, b[..|b| - 1]);
    }
  }

  /** The chunks in a row are the fields of the shown alerts in a row, then the tail. */
  lemma {:induction false} LayoutFields(shown: seq<Alert>, i: nat, tail: seq<Field>)
    requires i < |shown|
    ensures Flatten(LayoutFrom(shown, i, tail)) == ChunkFields(shown[i..]) + tail
    decreases |shown| - i
  {
    var end := ChunkEnd(shown, i);
    var mine := if end == |shown| then tail else [];
    var rest := LayoutFrom(shown, end, tail);
    FlattenCons(ChunkFields(shown[i..end]) + mine, rest);
    if end < |shown| {
      LayoutFields(shown, end, tail);
      FieldsOfSplit(shown, i, end);
      RegroupLast(ChunkFields(shown[i..end]), ChunkFields(shown[end..]), tail);
    } else {
      assert shown[i..end] == shown[i..];
      RegroupNone(ChunkFields(shown[i..end]) + tail);
    }
  }

  lemma RegroupLast(a: seq<Field>, b: seq<Field>, c: seq<Field>)
    ensures a + [] + (b + c) == a + b + c
  {
  }

  lemma RegroupNone(a: seq<Field>)
    ensures a + [] == a
  {
  }

  lemma FieldsOfSplit(shown: seq<Alert>, i: nat, end: nat)
    requires i <= end <= |shown|
    ensures ChunkFields(shown[i..]) == ChunkFields(shown[i..end]) + ChunkFields(shown[end..])
  {
    assert shown[i..end] + shown[end..] == shown[i..];
    ChunkAppend(shown[i..end], shown[end..]);
  }

  lemma ChunkOfOne(a: Alert)
    ensures ChunkFields([a]) == FieldsOf(a)
  {
    assert [a][..0] == [] && [] + FieldsOf(a) == FieldsOf(a);
  }

  lemma ChunkSplits(shown: seq<Alert>, i: nat)
    requires i < |shown|
    ensures ChunkFields(shown) == ChunkFields(shown[..i]) + FieldsOf(shown[i]) + ChunkFields(shown[i + 1..])
  {
    SplitAt(shown, i);
    ChunkAround(shown[..i], shown[i], shown[i + 1..]);
  }

  lemma ChunkAround(a: seq<Alert>, x: Alert, b: seq<Alert>)
    ensures ChunkFields(a + [x] + b) == ChunkFields(a) + FieldsOf(x) + ChunkFields(b)
  {
    ChunkAppend(a + [x], b);
    ChunkAppend(a, [x]);
    ChunkOfOne(x);
  }

  lemma ChunkStart(shown: seq<Alert>, i: nat)
    requires i < |shown|
    ensures ChunkFields(shown[i..]) != [] && ChunkFields(shown[i..])[0] == PolicySummary(shown[i])
  {
    assert shown[i..] == [shown[i]] + shown[i + 1..];
    ChunkAppend([shown[i]], shown[i + 1..]);
    ChunkOfOne(shown[i]);
  }

  /** All fields of a message, alert by alert: the summary, the report ID if there is one, the details if there are any,
      then the next alert, and after the last one the ending. Up to 300 alerts are all shown, of more the first 299. */
  lemma AlertFields(alerts: seq<Alert>, i: nat) returns (before: seq<Field>, after: seq<Field>)
    requires i < if |alerts| > 300 then 299 else |alerts|
    ensures var a := alerts[i];
      Flatten(Layout(alerts)) ==
      before
      + ([PolicySummary(a)] + (if a.reportId != "" then [ReportId(a.reportId)] else [])
         + if a.details != [] then [FailureDetails(a)] else [])
      + after
    ensures SummariesIn(before) == alerts[..i] && (i == 0 ==> before == [])
    ensures after != []
    ensures i + 1 < (if |alerts| > 300 then 299 else |alerts|) ==> after[0] == PolicySummary(alerts[i + 1])
    ensures i + 1 == |alerts| <= 300 ==> after == [RunId]
    ensures i + 1 == 299 && |alerts| > 300 ==>
              after == [AdditionalPolicies(|alerts| - 299, |set a | a in alerts[299..] :: a.organization|, SessionSum(alerts[299..])), RunId]
  {
    var shown, tail := alerts[..ShownCount(|alerts|)], Tail(alerts);
    ShownCountIs(|alerts|);
    TailIs(alerts);
    before, after := FieldsAround(shown, i, tail);
    assert shown[..i] == alerts[..i];
  }

  lemma ShownCountIs(n: nat)
    ensures ShownCount(n) == if n > 300 then 299 else n
  {
  }

  lemma TailIs(alerts: seq<Alert>)
    ensures Tail(alerts) ==
            if |alerts| > 300
            then [AdditionalPolicies(|alerts| - 299, |set a | a in alerts[299..] :: a.organization|, SessionSum(alerts[299..])), RunId]
            else [RunId]
  {
    ShownCountIs(|alerts|);
  }

  lemma FieldsAround(shown: seq<Alert>, i: nat, tail: seq<Field>) returns (before: seq<Field>, after: seq<Field>)
    requires i < |shown| && tail != []
    ensures Flatten(LayoutFrom(shown, 0, tail)) == before + FieldsOf(shown[i]) + after
    ensures SummariesIn(before) == shown[..i] && (i == 0 ==> before == [])
    ensures after != []
    ensures i + 1 < |shown| ==> after[0] == PolicySummary(shown[i + 1])
    ensures i + 1 == |shown| ==> after == tail
  {
    before, after := ChunkFields(shown[..i]), ChunkFields(shown[i + 1..]) + tail;
    LayoutFields(shown, 0, tail);
    assert shown[0..] == shown;
    ChunkSplits(shown, i);
    ChunkHolds(shown[..i]);
    FieldsAfter(shown, i, tail);
    Regroup(before, FieldsOf(shown[i]), ChunkFields(shown[i + 1..]), tail);
  }

  lemma FieldsAfter(shown: seq<Alert>, i: nat, tail: seq<Field>)
    requires i < |shown| && tail != []
    ensures var after := ChunkFields(shown[i + 1..]) + tail;
      && after != []
      && (i + 1 < |shown| ==> after[0] == PolicySummary(shown[i + 1]))
      && (i + 1 == |shown| ==> after == tail)
  {
    if i + 1 < |shown| {
      ChunkStart(shown, i + 1);
    } else {
      assert shown[i + 1..] == [] && [] + tail == tail;
    }
  }

  lemma Regroup(a: seq<Field>, b: seq<Field>, c: seq<Field>, d: seq<Field>)
    ensures a + b + c + d == a + b + (c + d)
  {
  }

  /** How many alerts, and in how many attachments: three to each. */
  lemma MessageSize(alerts: seq<Alert>)
    requires alerts != []
    ensures Shown(alerts) == alerts[..if |alerts| > 300 then 299 else |alerts|]
    ensures |Layout(alerts)| == (|Shown(alerts)| + 2) / 3
  {
    ShownIsPrefix(alerts);
    LayoutCount(alerts[..ShownCount(|alerts|)], 0, Tail(alerts));
  }

  lemma SessionSplit(alerts: seq<Alert>, n: nat)
    requires n <= |alerts|
    ensures SessionSum(alerts) == SessionSum(alerts[..n]) + SessionSum(alerts[n..])
  {
    SessionAppend(alerts[..n], alerts[n..]);
    assert alerts[..n] + alerts[n..] == alerts;
  }

  /** Conservation for every list of alerts: the shown ones are the first, once each and in order; the overflow line
      is there exactly when some are not shown, and counts those and their sessions; together they are all. */
  lemma AlertConservation(alerts: seq<Alert>)
    requires alerts != []
    ensures Shown(alerts) <= alerts
    ensures var rest := alerts[|Shown(alerts)|..];
      && (rest == [] ==> NoOverflow(Flatten(Layout(alerts))))
      && (rest != [] ==> EndsWith(Layout(alerts), [AdditionalPolicies(|rest|, |Organizations(rest)|, SessionSum(rest)), RunId]))
      && SessionSum(Shown(alerts)) + SessionSum(rest) == SessionSum(alerts)
  {
    ShownIsPrefix(alerts);
    var shown := alerts[..ShownCount(|alerts|)];
    SessionSplit(alerts, |shown|);
    if |shown| < |alerts| {
      var rest := alerts[|shown|..];
      assert Tail(alerts) == [AdditionalPolicies(|rest|, |Organizations(rest)|, SessionSum(rest)), RunId];
      LastEndsWith(shown, 0, Tail(alerts));
    } else {
      NoOverflowField(shown, 0, Tail(alerts));
    }
  }

  /** The last attachment ends with these fields. */
  ghost predicate EndsWith(atts: seq<seq<Field>>, tail: seq<Field>) {
    && atts != [] && |tail| <= |atts[|atts| - 1]|
    && atts[|atts| - 1][|atts[|atts| - 1]| - |tail|..] == tail
  }

  ghost predicate NoOverflow(fields: seq<Field>) {
    forall f :: f in fields ==> !f.AdditionalPolicies?
  }

  lemma {:induction false} LastEndsWith(shown: seq<Alert>, i: nat, tail: seq<Field>)
    requires i < |shown|
    ensures EndsWith(LayoutFrom(shown, i, tail), tail)
    decreases |shown| - i
  {
    var end := ChunkEnd(shown, i);
    if end < |shown| {
      LastEndsWith(shown, end, tail);
    } else {
      assert LayoutFrom(shown, i, tail) == [ChunkFields(shown[i..end]) + tail];
    }
  }

  lemma {:induction false} ChunkHasNoOverflow(chunk: seq<Alert>)
    ensures NoOverflow(ChunkFields(chunk))
  {
    if chunk != [] {
      ChunkHasNoOverflow(chunk[..|chunk| - 1]);
    }
  }

  lemma {:induction false} NoOverflowField(shown: seq<Alert>, i: nat, tail: seq<Field>)
    requires NoOverflow(tail)
    ensures NoOverflow(Flatten(LayoutFrom(shown, i, tail)))
    decreases |shown| - i
  {
    if i < |shown| {
      var end := ChunkEnd(shown, i);
      NoOverflowField(shown, end, tail);
      ChunkHasNoOverflow(shown[i..end]);
      FlattenCons(ChunkFields(shown[i..end]) + if end == |shown| then tail else [], LayoutFrom(shown, end, tail));
    }
  }
}
