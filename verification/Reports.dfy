/** internal/store/reports.go and SaveEmailMetas: the two upserts of the data file,
    the last-wins one for reports and the first-wins one for the email index. */
module Reports {
  import opened Types
  import opened Sequences

  /** The last position that holds `id`, or -1. The position map of SaveReports
      overwrites earlier positions, so it points at the last one. */
  function LastIndex(rs: seq<Report>, id: string): (i: int)
    ensures -1 <= i < |rs|
    ensures i >= 0 ==> rs[i].id == id
    ensures forall k :: i < k < |rs| ==> rs[k].id != id
  {
    if rs == [] then -1
    else if rs[|rs| - 1].id == id then |rs| - 1
    else LastIndex(rs[..|rs| - 1], id)
  }

  function Find(rs: seq<Report>, id: string): Option<Report> {
    var i := LastIndex(rs, id);
    if i >= 0 then Some(rs[i]) else None
  }

  function UpsertOne(rs: seq<Report>, r: Report): seq<Report> {
    var i := LastIndex(rs, r.id);
    if i >= 0 then rs[i := r] else rs + [r]
  }

  function Upsert(rs: seq<Report>, xs: seq<Report>): seq<Report> {
    if xs == [] then rs
    else UpsertOne(Upsert(rs, xs[..|xs| - 1]), xs[|xs| - 1])
  }

  /** The independent reading of a report list: a map in which later entries win. */
  function FoldMap(m: map<string, Report>, xs: seq<Report>): map<string, Report> {
    if xs == [] then m
    else FoldMap(m, xs[..|xs| - 1])[xs[|xs| - 1].id := xs[|xs| - 1]]
  }

  function AsMap(rs: seq<Report>): map<string, Report> {
    FoldMap(map[], rs)
  }

  ghost predicate UniqueIds(rs: seq<Report>) {
    forall i, j :: 0 <= i < j < |rs| ==> rs[i].id != rs[j].id
  }

  /** The position map of SaveReports: every stored id with its last position. */
  ghost predicate PositionsOf(idx: map<string, int>, rs: seq<Report>) {
    && (forall id :: id in idx ==> idx[id] == LastIndex(rs, id) >= 0)
    && (forall id :: LastIndex(rs, id) >= 0 ==> id in idx)
  }

  lemma PositionsAfterUpsert(idx: map<string, int>, rs: seq<Report>, r: Report)
    requires PositionsOf(idx, rs)
    ensures PositionsOf(if r.id in idx then idx else idx[r.id := |rs|], UpsertOne(rs, r))
  {
    forall id ensures LastIndex(UpsertOne(rs, r), id) ==
                      if id != r.id || LastIndex(rs, id) >= 0 then LastIndex(rs, id) else |rs|
    {
      LastIndexAfterUpsert(rs, r, id);
    }
  }

  lemma PositionsOfPrefix(idx: map<string, int>, rs: seq<Report>, i: nat)
    requires i < |rs| && PositionsOf(idx, rs[..i])
    ensures PositionsOf(idx[rs[i].id := i], rs[..i + 1])
  {
    assert rs[..i + 1][..i] == rs[..i];
  }

  /** SaveReports: one pass builds the position map, one pass updates in place or appends. */
  method SaveReports(stored: seq<Report>, inputs: seq<Report>) returns (reports: seq<Report>)
    ensures reports == Upsert(stored, inputs)
    // the last input of each ID is stored, other reports stay in place, and nothing else comes in
    ensures forall k :: 0 <= k < |inputs| && (forall j :: k < j < |inputs| ==> inputs[j].id != inputs[k].id) ==> inputs[k] in reports
    ensures |stored| <= |reports|
    ensures forall i :: 0 <= i < |stored| && (forall x :: x in inputs ==> x.id != stored[i].id) ==> reports[i] == stored[i]
    ensures forall r :: r in reports ==> r in stored || r in inputs
  {
    reports := UpsertAll(stored, inputs);
    UpsertMeans(stored, inputs);
  }

  method UpsertAll(stored: seq<Report>, inputs: seq<Report>) returns (reports: seq<Report>)
    ensures reports == Upsert(stored, inputs)
  {
    var reportIdx: map<string, int> := map[];
    for i := 0 to |stored|
      invariant PositionsOf(reportIdx, stored[..i])
    {
      PositionsOfPrefix(reportIdx, stored, i);
      reportIdx := reportIdx[stored[i].id := i];
    }
    assert stored[..|stored|] == stored;
    reports := stored;
    for k := 0 to |inputs|
      invariant reports == Upsert(stored, inputs[..k])
      invariant PositionsOf(reportIdx, reports)
    {
      var input := inputs[k];
      PositionsAfterUpsert(reportIdx, reports, input);
      assert inputs[..k + 1][..k] == inputs[..k];
      if input.id in reportIdx {
        reports := reports[reportIdx[input.id] := input];
      } else {
        reports := reports + [input];
        reportIdx := reportIdx[input.id := |reports| - 1];
      }
    }
    assert inputs[..|inputs|] == inputs;
  }

  /** A position is the last one of `id` when it holds `id` and no later one does. */
  lemma LastIndexIs(rs: seq<Report>, id: string, i: int)
    requires -1 <= i < |rs|
    requires i >= 0 ==> rs[i].id == id
    requires forall k :: i < k < |rs| ==> rs[k].id != id
    ensures LastIndex(rs, id) == i
  {
    assert !(LastIndex(rs, id) < i) && !(i < LastIndex(rs, id));
  }

  lemma LastIndexAfterUpsert(rs: seq<Report>, r: Report, id: string)
    ensures id != r.id ==> LastIndex(UpsertOne(rs, r), id) == LastIndex(rs, id)
    ensures id == r.id ==>
              LastIndex(UpsertOne(rs, r), id) == if LastIndex(rs, id) >= 0 then LastIndex(rs, id) else |rs|
  {
    var i := LastIndex(rs, r.id);
    if id == r.id {
      LastIndexIs(UpsertOne(rs, r), id, if i >= 0 then i else |rs|);
    } else {
      LastIndexIs(UpsertOne(rs, r), id, LastIndex(rs, id));
    }
  }

  /** Looking a report up after the upsert: the last input of that id, else what was stored. */
  lemma {:induction false} FindAfterUpsert(rs: seq<Report>, xs: seq<Report>, id: string)
    ensures Find(Upsert(rs, xs), id) == if Find(xs, id).Some? then Find(xs, id) else Find(rs, id)
  {
    if xs == [] {
    } else {
      var init, x := xs[..|xs| - 1], xs[|xs| - 1];
      FindAfterUpsert(rs, init, id);
      LastIndexAfterUpsert(Upsert(rs, init), x, id);
    }
  }

  lemma {:induction false} FoldMapFinds(m: map<string, Report>, xs: seq<Report>, id: string)
    ensures id in FoldMap(m, xs) <==> Find(xs, id).Some? || id in m
    ensures id in FoldMap(m, xs) ==>
              FoldMap(m, xs)[id] == if Find(xs, id).Some? then Find(xs, id).value else m[id]
  {
    if xs == [] {
    } else {
      FoldMapFinds(m, xs[..|xs| - 1], id);
    }
  }

  /** The indexed upsert refines folding last-wins map updates over the stored map. */
  lemma UpsertRefinesMap(rs: seq<Report>, xs: seq<Report>)
    ensures AsMap(Upsert(rs, xs)) == FoldMap(AsMap(rs), xs)
  {
    forall id
      ensures id in AsMap(Upsert(rs, xs)) <==> id in FoldMap(AsMap(rs), xs)
      ensures id in AsMap(Upsert(rs, xs)) ==> AsMap(Upsert(rs, xs))[id] == FoldMap(AsMap(rs), xs)[id]
    {
      FindAfterUpsert(rs, xs, id);
      FoldMapFinds(map[], Upsert(rs, xs), id);
      FoldMapFinds(AsMap(rs), xs, id);
      FoldMapFinds(map[], rs, id);
    }
  }

  /** Report IDs stay unique, and every stored report keeps its position. */
  lemma {:induction false} UpsertKeepsIdsAndOrder(rs: seq<Report>, xs: seq<Report>)
    ensures UniqueIds(rs) ==> UniqueIds(Upsert(rs, xs))
    ensures |rs| <= |Upsert(rs, xs)|
    ensures forall i :: 0 <= i < |rs| ==> Upsert(rs, xs)[i].id == rs[i].id
  {
    if xs == [] {
    } else {
      UpsertKeepsIdsAndOrder(rs, xs[..|xs| - 1]);
    }
  }

  /** The upsert in plain words. */
  lemma {:induction false} UpsertMeans(rs: seq<Report>, xs: seq<Report>)
    ensures forall k :: 0 <= k < |xs| && (forall j :: k < j < |xs| ==> xs[j].id != xs[k].id) ==> xs[k] in Upsert(rs, xs)
    ensures |rs| <= |Upsert(rs, xs)|
    ensures forall i :: 0 <= i < |rs| && (forall x :: x in xs ==> x.id != rs[i].id) ==> Upsert(rs, xs)[i] == rs[i]
    ensures forall r :: r in Upsert(rs, xs) ==> r in rs || r in xs
  {
    forall k | 0 <= k < |xs| && (forall j :: k < j < |xs| ==> xs[j].id != xs[k].id) ensures xs[k] in Upsert(rs, xs) {
      LastIndexIs(xs, xs[k].id, k);
      FindAfterUpsert(rs, xs, xs[k].id);
    }
    UpsertStays(rs, xs);
  }

  lemma {:induction false} UpsertStays(rs: seq<Report>, xs: seq<Report>)
    ensures |rs| <= |Upsert(rs, xs)|
    ensures forall i :: 0 <= i < |rs| && (forall x :: x in xs ==> x.id != rs[i].id) ==> Upsert(rs, xs)[i] == rs[i]
    ensures forall r :: r in Upsert(rs, xs) ==> r in rs || r in xs
  {
    if xs != [] {
      var init, last := xs[..|xs| - 1], xs[|xs| - 1];
      UpsertStays(rs, init);
      assert forall x :: x in init ==> x in xs;
      assert last in xs;
    }
  }

  /** When every input id is already stored, only the last position of an id changes,
      and it ends with the last input of that id. */
  lemma {:induction false} UpsertInPlace(rs: seq<Report>, xs: seq<Report>, i: int)
    requires forall x :: x in xs ==> LastIndex(rs, x.id) >= 0
    requires 0 <= i < |rs|
    ensures |Upsert(rs, xs)| == |rs|
    ensures Upsert(rs, xs)[i] ==
            if i == LastIndex(rs, rs[i].id) && Find(xs, rs[i].id).Some? then Find(xs, rs[i].id).value else rs[i]
  {
    PositionsStay(rs, xs);
    if xs != [] {
      var init, x := xs[..|xs| - 1], xs[|xs| - 1];
      PositionsStay(rs, init);
      UpsertInPlace(rs, init, i);
      FindLast(xs, rs[i].id);
      assert x in xs;
      var at := LastIndex(rs, x.id);
      assert Upsert(rs, xs) == Upsert(rs, init)[at := x];
      assert i == at ==> rs[i].id == x.id;
    }
  }

  lemma FindLast(xs: seq<Report>, id: string)
    requires xs != []
    ensures var n := |xs| - 1; Find(xs, id) == if xs[n].id == id then Some(xs[n]) else Find(xs[..n], id)
  {
  }

  /** Where every ID is stored already, no position changes. */
  lemma {:induction false} PositionsStay(rs: seq<Report>, xs: seq<Report>)
    requires forall x :: x in xs ==> LastIndex(rs, x.id) >= 0
    ensures |Upsert(rs, xs)| == |rs|
    ensures forall id :: LastIndex(Upsert(rs, xs), id) == LastIndex(rs, id)
  {
    if xs != [] {
      var init, x := xs[..|xs| - 1], xs[|xs| - 1];
      PositionsStay(rs, init);
      assert x in xs;
      forall id ensures LastIndex(Upsert(rs, xs), id) == LastIndex(rs, id) {
        LastIndexAfterUpsert(Upsert(rs, init), x, id);
      }
    }
  }

  /** Saving inputs changes nothing exactly when each input id is stored with the last
      report those inputs give for it. */
  lemma UpsertUnchangedIff(rs: seq<Report>, xs: seq<Report>)
    ensures Upsert(rs, xs) == rs <==> forall x :: x in xs ==> Find(rs, x.id) == Find(xs, x.id)
  {
    forall x | x in xs
      ensures Find(xs, x.id).Some?
    {
      var k :| 0 <= k < |xs| && xs[k] == x;
      if LastIndex(xs, x.id) < k { assert false; }
    }
    if Upsert(rs, xs) == rs {
      forall x | x in xs ensures Find(rs, x.id) == Find(xs, x.id) {
        FindAfterUpsert(rs, xs, x.id);
      }
    }
    if forall x :: x in xs ==> Find(rs, x.id) == Find(xs, x.id) {
      forall i | 0 <= i < |rs| ensures |Upsert(rs, xs)| == |rs| && Upsert(rs, xs)[i] == rs[i] {
        UpsertInPlace(rs, xs, i);
        if Find(xs, rs[i].id).Some? {
          assert xs[LastIndex(xs, rs[i].id)] in xs;
        }
      }
      if rs == [] && xs != [] { assert xs[0] in xs; }
    }
  }

  /** Saving the same inputs again changes nothing. */
  lemma UpsertIdempotent(rs: seq<Report>, xs: seq<Report>)
    ensures Upsert(Upsert(rs, xs), xs) == Upsert(rs, xs)
  {
    forall x | x in xs ensures Find(Upsert(rs, xs), x.id) == Find(xs, x.id) {
      FindAfterUpsert(rs, xs, x.id);
      var k :| 0 <= k < |xs| && xs[k] == x;
      if LastIndex(xs, x.id) < k { assert false; }
    }
    UpsertUnchangedIff(Upsert(rs, xs), xs);
  }

  /** Saving in two batches is saving the concatenation. */
  lemma {:induction false} UpsertAppend(rs: seq<Report>, xs: seq<Report>, ys: seq<Report>)
    ensures Upsert(rs, xs + ys) == Upsert(Upsert(rs, xs), ys)
  {
    if ys == [] {
      assert xs + ys == xs;
    } else {
      UpsertAppend(rs, xs, ys[..|ys| - 1]);
      AppendLast(xs, ys);
    }
  }

  // ---- the email index ----

  ghost predicate Indexed(index: seq<IndexEntry>, key: EmailKey) {
    exists e :: e in index && KeyOf(e) == key
  }

  function Keys(index: seq<IndexEntry>): (keys: set<EmailKey>)
    ensures forall key :: key in keys <==> Indexed(index, key)
  {
    set e | e in index :: KeyOf(e)
  }

  function AddMeta(index: seq<IndexEntry>, m: IndexEntry): seq<IndexEntry> {
    if KeyOf(m) in Keys(index) then index else index + [m]
  }

  function AddMetas(index: seq<IndexEntry>, metas: seq<IndexEntry>): seq<IndexEntry> {
    if metas == [] then index
    else AddMeta(AddMetas(index, metas[..|metas| - 1]), metas[|metas| - 1])
  }

  datatype MetasResult = MetasSaved(index: seq<IndexEntry>) | ZeroInternalDate

  /** SaveEmailMetas: nothing is written when any entry has a zero date. */
  method SaveEmailMetas(stored: seq<IndexEntry>, metas: seq<IndexEntry>) returns (r: MetasResult)
    ensures r.ZeroInternalDate? <==> exists m :: m in metas && m.date.IsZero()
    ensures r.MetasSaved? ==> r.index == AddMetas(stored, metas)
  {
    var existing: set<EmailKey> := {};
    for i := 0 to |stored|
      invariant existing == Keys(stored[..i])
    {
      assert forall e :: e in stored[..i + 1] <==> e in stored[..i] || e == stored[i];
      existing := existing + {KeyOf(stored[i])};
    }
    assert stored[..|stored|] == stored;
    var emails := stored;
    for k := 0 to |metas|
      invariant emails == AddMetas(stored, metas[..k])
      invariant existing == Keys(emails)
      invariant forall m :: m in metas[..k] ==> !m.date.IsZero()
    {
      var meta := metas[k];
      if meta.date.IsZero() {
        return ZeroInternalDate;
      }
      assert metas[..k + 1][..k] == metas[..k];
      if KeyOf(meta) !in existing {
        emails := emails + [meta];
        existing := existing + {KeyOf(meta)};
      }
    }
    assert metas[..|metas|] == metas;
    return MetasSaved(emails);
  }

  lemma KeysSnoc(index: seq<IndexEntry>, m: IndexEntry)
    ensures Keys(index + [m]) == Keys(index) + {KeyOf(m)}
  {
    assert forall e :: e in index + [m] <==> e in index || e == m;
  }

  /** First wins: entries already there are a prefix of the result, and exactly the
      stored and the given keys are indexed afterwards. */
  lemma {:induction false} AddMetasFirstWins(index: seq<IndexEntry>, metas: seq<IndexEntry>)
    ensures index <= AddMetas(index, metas)
    ensures Keys(AddMetas(index, metas)) == Keys(index) + Keys(metas)
    ensures forall e :: e in AddMetas(index, metas) ==> e in index || e in metas
  {
    if metas == [] {
    } else {
      var init, m := metas[..|metas| - 1], metas[|metas| - 1];
      AddMetasFirstWins(index, init);
      KeysSnoc(AddMetas(index, init), m);
      KeysSnoc(init, m);
      assert metas == init + [m];
    }
  }

  /** The first entry with a new key is added as it is. */
  lemma {:induction false} NewMetaIsAdded(index: seq<IndexEntry>, metas: seq<IndexEntry>, k: nat)
    requires k < |metas|
    requires forall e :: e in index ==> e.uid != metas[k].uid || e.uidValidity != metas[k].uidValidity
    requires forall j :: 0 <= j < k ==> metas[j].uid != metas[k].uid || metas[j].uidValidity != metas[k].uidValidity
    ensures metas[k] in AddMetas(index, metas)
  {
    var n := |metas| - 1;
    var init := metas[..n];
    if k < n {
      NewMetaIsAdded(index, init, k);
    } else {
      AddMetasFirstWins(index, init);
    }
  }

  /** Nothing is added when every key is indexed already. */
  lemma {:induction false} AddMetasUnchanged(index: seq<IndexEntry>, metas: seq<IndexEntry>)
    requires Keys(metas) <= Keys(index)
    ensures AddMetas(index, metas) == index
  {
    if metas == [] {
    } else {
      var init, m := metas[..|metas| - 1], metas[|metas| - 1];
      assert forall e :: e in metas <==> e in init || e == m;
      assert Indexed(metas, KeyOf(m));
      AddMetasUnchanged(index, init);
    }
  }

  /** Saving in two batches is saving the concatenation. */
  lemma {:induction false} AddMetasAppend(index: seq<IndexEntry>, a: seq<IndexEntry>, b: seq<IndexEntry>)
    ensures AddMetas(index, a + b) == AddMetas(AddMetas(index, a), b)
  {
    if b == [] {
      assert a + b == a;
    } else {
      AddMetasAppend(index, a, b[..|b| - 1]);
      AppendLast(a, b);
    }
  }

  lemma AddMetasIdempotent(index: seq<IndexEntry>, metas: seq<IndexEntry>)
    ensures AddMetas(AddMetas(index, metas), metas) == AddMetas(index, metas)
  {
    AddMetasFirstWins(index, metas);
    AddMetasUnchanged(AddMetas(index, metas), metas);
  }

  /** The reports of one message, in attachment order. */
  function ReportsIn(atts: seq<Attachment>): seq<Report> {
    if atts == [] then []
    else
      var last := atts[|atts| - 1];
      ReportsIn(atts[..|atts| - 1]) + if last.Tlsrpt? then [last.report] else []
  }

  function ReportsOf(mail: Mail): seq<Report> {
    if !mail.Readable? then [] else ReportsIn(mail.attachments)
  }

  /** A report is one of the message exactly when an attachment holds it. */
  predicate Carries(mail: Mail, r: Report) {
    mail.Readable? && exists n :: 0 <= n < |mail.attachments| && mail.attachments[n] == Tlsrpt(r)
  }

  lemma {:induction false} ReportsInAre(atts: seq<Attachment>, r: Report)
    ensures r in ReportsIn(atts) <==> exists n :: 0 <= n < |atts| && atts[n] == Tlsrpt(r)
  {
    if atts != [] {
      var n := |atts| - 1;
      ReportsInAre(atts[..n], r);
      if r in ReportsIn(atts[..n]) {
        var k :| 0 <= k < n && atts[..n][k] == Tlsrpt(r);
        assert atts[k] == Tlsrpt(r);
      }
      if k :| 0 <= k < n && atts[k] == Tlsrpt(r) {
        assert atts[..n][k] == Tlsrpt(r);
      }
    }
  }

  /** Of several attachments with one report ID the last one counts. */
  lemma {:induction false} LastAttachmentCounts(atts: seq<Attachment>, n: nat, r: Report)
    requires n < |atts| && atts[n] == Tlsrpt(r)
    requires forall k :: n < k < |atts| && atts[k].Tlsrpt? ==> atts[k].report.id != r.id
    ensures Find(ReportsIn(atts), r.id) == Some(r)
  {
    var last := |atts| - 1;
    if n < last {
      LastAttachmentCounts(atts[..last], n, r);
    }
    if atts[last].Tlsrpt? {
      FindSnoc(ReportsIn(atts[..last]), atts[last].report, r.id);
    } else {
      assert ReportsIn(atts[..last]) + [] == ReportsIn(atts[..last]);
    }
  }

  lemma FindSnoc(rs: seq<Report>, r: Report, id: string)
    ensures Find(rs + [r], id) == if r.id == id then Some(r) else Find(rs, id)
  {
    assert (rs + [r])[..|rs|] == rs;
    FindLast(rs + [r], id);
  }
}
