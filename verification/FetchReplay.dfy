/** Fetch crash equivalence: what crashing, failing and rerunning a fetch leaves behind. */
module FetchReplay {
  import opened Types
  import opened Sequences
  import opened Reports
  import opened Messages
  import opened FetchRun

  /** Bodies are immutable on the server, so a stored file of a message holds its body. */
  ghost predicate Faithful(emls: EmailDir, epoch: uint32, inbox: seq<Msg>) {
    forall i :: 0 <= i < |inbox| && Path(epoch, inbox[i]) in emls ==> emls[Path(epoch, inbox[i])] == inbox[i].mail
  }

  /** The reports of these messages, in order. */
  function Inputs(msgs: seq<Msg>): seq<Report> {
    if msgs == [] then [] else Inputs(msgs[..|msgs| - 1]) + ReportsOf(msgs[|msgs| - 1].mail)
  }

  function Unmarked(inbox: seq<Msg>, seen: set<uint32>): seq<Msg> {
    if inbox == [] then []
    else
      Unmarked(inbox[..|inbox| - 1], seen) +
      if inbox[|inbox| - 1].uid in seen then [] else [inbox[|inbox| - 1]]
  }

  /** No two messages carry the same report ID with different final content. */
  ghost predicate Agree(inbox: seq<Msg>) {
    forall m, m', id :: m in inbox && m' in inbox ==> AgreeOn(m, m', id)
  }

  predicate AgreeOn(m: Msg, m': Msg, id: string) {
    Find(ReportsOf(m.mail), id).Some? && Find(ReportsOf(m'.mail), id).Some? ==>
      Find(ReportsOf(m.mail), id) == Find(ReportsOf(m'.mail), id)
  }

  /** How far runs have got through the inbox: the files saved, the entries indexed, the reports saved, and,
      where UID STORE is all or nothing, the messages marked. */
  datatype Progress = Progress(files: nat, indexed: nat, saved: nat, marked: nat)

  /** The store after that much of the inbox. */
  ghost predicate OnTheWay(p: Progress, inbox: seq<Msg>, epoch: uint32, atomicFlags: bool,
                           emls0: EmailDir, index0: seq<IndexEntry>, reports0: seq<Report>,
                           emls: EmailDir, index: seq<IndexEntry>, reports: seq<Report>, seen: set<uint32>) {
    && p.marked <= p.saved <= p.indexed <= p.files <= |inbox|
    && emls == Saved(emls0, epoch, inbox[..p.files])
    && index == AddMetas(index0, Metas(epoch, inbox[..p.indexed]))
    && reports == Upsert(reports0, Inputs(inbox[..p.saved]))
    && seen * Uids(inbox) <= Uids(inbox[..p.saved])
    && (atomicFlags ==> seen * Uids(inbox) == Uids(inbox[..p.marked]))
  }

  /** The store of a single uninterrupted run over messages that were all unseen. */
  ghost predicate Arrived(inbox: seq<Msg>, epoch: uint32, emls0: EmailDir, index0: seq<IndexEntry>, reports0: seq<Report>,
                          emls: EmailDir, index: seq<IndexEntry>, reports: seq<Report>) {
    && emls == Saved(emls0, epoch, inbox)
    && index == AddMetas(index0, Metas(epoch, inbox))
    && reports == Upsert(reports0, Inputs(inbox))
  }

  /** Fetch crash equivalence: messages arrive at the end of the inbox while runs crash or fail anywhere, any
      number of them; then one run that sees all messages and completes. It leaves the same .eml files, index
      and reports as a single uninterrupted run over messages that start unseen and whose flags only this tool
      changes. */
  method FetchUntilDone(tool: Tool, inbox: seq<Msg>, failures: nat) returns (code: Exit)
    requires tool.AtLeastOnce() && DistinctUids(inbox)
    requires forall i :: 0 <= i < |inbox| ==> !inbox[i].date.IsZero()
    requires Faithful(tool.emls, tool.epoch, inbox)
    requires tool.seen * Uids(inbox) == {}
    requires tool.atomicFlags || Agree(inbox)
    modifies tool
    ensures code == ExitOk
    ensures Arrived(inbox, tool.epoch, old(tool.emls), old(tool.index), old(tool.reports), tool.emls, tool.index, tool.reports)
    ensures tool.AtLeastOnce() && (!tool.readOnly ==> Uids(inbox) <= tool.seen)
    // in plain words: each message has its file, and if it is new an entry of its own date that leads there
    ensures forall m :: m in inbox ==>
              var path := EmailPath(tool.epoch, m.date.year, m.date.month, m.uid);
              && path in tool.emls && tool.emls[path] == m.mail
              && ((forall e :: e in old(tool.index) ==> e.uid != m.uid || e.uidValidity != tool.epoch) ==>
                    IndexEntry(m.uid, tool.epoch, m.date) in tool.index && PathOf(IndexEntry(m.uid, tool.epoch, m.date)) == path)
    // of each report ID the last attachment of the last message is stored
    ensures forall k, n, r :: LastOfItsId(inbox, k, n, r) ==> r in tool.reports
    ensures forall r :: r in tool.reports ==> r in old(tool.reports) || exists m :: m in inbox && Carries(m.mail, r)
  {
    ghost var p := AtTheStart(inbox, tool.epoch, tool.atomicFlags, tool.emls, tool.index, tool.reports, tool.seen);
    p := FetchMeanwhile(tool, inbox, failures, p, tool.emls, tool.index, tool.reports);
    tool.steady, tool.readOnly := true, *;
    code := FetchAll(tool, inbox, p, old(tool.emls), old(tool.index), old(tool.reports));
    ArrivedMeans(inbox, tool.epoch, old(tool.emls), old(tool.index), old(tool.reports));
  }

  /** Attachment n of message k holds r, and no later attachment, of this message or a later one, has its ID. */
  ghost predicate LastOfItsId(inbox: seq<Msg>, k: int, n: int, r: Report) {
    && 0 <= k < |inbox| && inbox[k].mail.Readable?
    && 0 <= n < |inbox[k].mail.attachments| && inbox[k].mail.attachments[n] == Tlsrpt(r)
    && (forall j :: n < j < |inbox[k].mail.attachments| && inbox[k].mail.attachments[j].Tlsrpt? ==>
          inbox[k].mail.attachments[j].report.id != r.id)
    && (forall i, r' :: k < i < |inbox| && Carries(inbox[i].mail, r') ==> r'.id != r.id)
  }

  lemma ArrivedMeans(inbox: seq<Msg>, epoch: uint32, emls0: EmailDir, index0: seq<IndexEntry>, reports0: seq<Report>)
    requires DistinctUids(inbox) && Faithful(emls0, epoch, inbox)
    ensures forall m :: m in inbox ==>
              var path := EmailPath(epoch, m.date.year, m.date.month, m.uid);
              && path in Saved(emls0, epoch, inbox) && Saved(emls0, epoch, inbox)[path] == m.mail
              && ((forall e :: e in index0 ==> e.uid != m.uid || e.uidValidity != epoch) ==>
                    && IndexEntry(m.uid, epoch, m.date) in AddMetas(index0, Metas(epoch, inbox))
                    && PathOf(IndexEntry(m.uid, epoch, m.date)) == path)
    ensures forall k, n, r :: LastOfItsId(inbox, k, n, r) ==> r in Upsert(reports0, Inputs(inbox))
    ensures forall r :: r in Upsert(reports0, Inputs(inbox)) ==> r in reports0 || exists m :: m in inbox && Carries(m.mail, r)
  {
    AllSaved(emls0, epoch, inbox);
    EntriesLeadToFiles(index0, emls0, epoch, inbox);
    forall k, n, r | LastOfItsId(inbox, k, n, r) ensures r in Upsert(reports0, Inputs(inbox)) {
      LastMessageCounts(inbox, k, n, r);
      FindAfterUpsert(reports0, Inputs(inbox), r.id);
    }
    UpsertMeans(reports0, Inputs(inbox));
    forall r | r in Inputs(inbox) ensures exists m :: m in inbox && Carries(m.mail, r) {
      InputsAreCarried(inbox, r);
    }
  }

  lemma {:induction false} LastMessageCounts(inbox: seq<Msg>, k: nat, n: nat, r: Report)
    requires LastOfItsId(inbox, k, n, r)
    ensures Find(Inputs(inbox), r.id) == Some(r)
  {
    var last := |inbox| - 1;
    var init := inbox[..last];
    FindAppend(Inputs(init), ReportsOf(inbox[last].mail), r.id);
    if k < last {
      assert LastOfItsId(init, k, n, r);
      LastMessageCounts(init, k, n, r);
      NotCarriedNotFound(inbox[last].mail, r.id);
    } else {
      LastAttachmentCounts(inbox[k].mail.attachments, n, r);
    }
  }

  lemma NotCarriedNotFound(mail: Mail, id: string)
    requires forall r :: Carries(mail, r) ==> r.id != id
    ensures Find(ReportsOf(mail), id).None?
  {
    if Find(ReportsOf(mail), id).Some? {
      var r := Find(ReportsOf(mail), id).value;
      assert r in ReportsOf(mail);
      ReportsInAre(mail.attachments, r);
    }
  }

  lemma {:induction false} InputsAreCarried(inbox: seq<Msg>, r: Report)
    requires r in Inputs(inbox)
    ensures exists m :: m in inbox && Carries(m.mail, r)
  {
    var last := |inbox| - 1;
    InAppend(Inputs(inbox[..last]), ReportsOf(inbox[last].mail));
    if r in Inputs(inbox[..last]) {
      InputsAreCarried(inbox[..last], r);
      var m :| m in inbox[..last] && Carries(m.mail, r);
      assert m in inbox;
    } else {
      ReportsInAre(inbox[last].mail.attachments, r);
      assert Carries(inbox[last].mail, r) && inbox[last] in inbox;
    }
  }

  /** The run that sees all messages and completes. */
  method FetchAll(tool: Tool, inbox: seq<Msg>, ghost p: Progress,
                  ghost emls0: EmailDir, ghost index0: seq<IndexEntry>, ghost reports0: seq<Report>) returns (code: Exit)
    requires tool.AtLeastOnce() && DistinctUids(inbox)
    requires forall i :: 0 <= i < |inbox| ==> !inbox[i].date.IsZero()
    requires Faithful(emls0, tool.epoch, inbox)
    requires OnTheWay(p, inbox, tool.epoch, tool.atomicFlags, emls0, index0, reports0, tool.emls, tool.index, tool.reports, tool.seen)
    requires tool.atomicFlags || Agree(inbox)
    requires tool.steady
    modifies tool`emls, tool`index, tool`reports, tool`saved, tool`seen, tool`buf, tool`delivered, tool`marked
    ensures tool.AtLeastOnce() && (!tool.readOnly ==> Uids(inbox) <= tool.seen)
    ensures code == ExitOk
    ensures Arrived(inbox, tool.epoch, emls0, index0, reports0, tool.emls, tool.index, tool.reports)
  {
    ghost var q;
    code, q := FetchArrived(tool, inbox, |inbox|, p, emls0, index0, reports0);
    AtTheEnd(q, inbox, tool.epoch, tool.atomicFlags, emls0, index0, reports0, tool.emls, tool.index, tool.reports, tool.seen);
  }

  /** Any number of runs, over messages that go on arriving. */
  method FetchMeanwhile(tool: Tool, inbox: seq<Msg>, runs: nat, ghost p: Progress,
                        ghost emls0: EmailDir, ghost index0: seq<IndexEntry>, ghost reports0: seq<Report>) returns (ghost q: Progress)
    requires tool.AtLeastOnce() && DistinctUids(inbox) && p.files == 0
    requires forall i :: 0 <= i < |inbox| ==> !inbox[i].date.IsZero()
    requires Faithful(emls0, tool.epoch, inbox)
    requires OnTheWay(p, inbox, tool.epoch, tool.atomicFlags, emls0, index0, reports0, tool.emls, tool.index, tool.reports, tool.seen)
    requires tool.atomicFlags || Agree(inbox)
    modifies tool
    ensures tool.AtLeastOnce()
    ensures OnTheWay(q, inbox, tool.epoch, tool.atomicFlags, emls0, index0, reports0, tool.emls, tool.index, tool.reports, tool.seen)
  {
    q := p;
    var arrived: nat := 0;
    for i := 0 to runs
      invariant tool.AtLeastOnce()
      invariant q.files <= arrived <= |inbox|
      invariant OnTheWay(q, inbox, tool.epoch, tool.atomicFlags, emls0, index0, reports0, tool.emls, tool.index, tool.reports, tool.seen)
    {
      var more: nat :| arrived <= more <= |inbox|;
      arrived := more;
      tool.steady, tool.readOnly := *, *;
      var code;
      code, q := FetchArrived(tool, inbox, arrived, q, emls0, index0, reports0);
    }
  }

  lemma AtTheEnd(p: Progress, inbox: seq<Msg>, epoch: uint32, atomicFlags: bool,
                 emls0: EmailDir, index0: seq<IndexEntry>, reports0: seq<Report>,
                 emls: EmailDir, index: seq<IndexEntry>, reports: seq<Report>, seen: set<uint32>)
    requires OnTheWay(p, inbox, epoch, atomicFlags, emls0, index0, reports0, emls, index, reports, seen)
    requires p.saved == |inbox|
    ensures Arrived(inbox, epoch, emls0, index0, reports0, emls, index, reports)
    ensures Uids(inbox[..|inbox|]) == Uids(inbox)
  {
    assert inbox[..|inbox|] == inbox;
  }

  lemma AtTheStart(inbox: seq<Msg>, epoch: uint32, atomicFlags: bool,
                   emls: EmailDir, index: seq<IndexEntry>, reports: seq<Report>, seen: set<uint32>) returns (p: Progress)
    requires seen * Uids(inbox) == {}
    ensures p.files == 0 && OnTheWay(p, inbox, epoch, atomicFlags, emls, index, reports, emls, index, reports, seen)
  {
    p := Progress(0, 0, 0, 0);
    assert inbox[..0] == [];
  }

  /** One run over the first n messages of the inbox. */
  method FetchArrived(tool: Tool, inbox: seq<Msg>, n: nat, ghost p: Progress,
                      ghost emls0: EmailDir, ghost index0: seq<IndexEntry>, ghost reports0: seq<Report>)
    returns (code: Exit, ghost q: Progress)
    requires tool.AtLeastOnce() && DistinctUids(inbox) && p.files <= n <= |inbox|
    requires forall i :: 0 <= i < |inbox| ==> !inbox[i].date.IsZero()
    requires Faithful(emls0, tool.epoch, inbox)
    requires OnTheWay(p, inbox, tool.epoch, tool.atomicFlags, emls0, index0, reports0, tool.emls, tool.index, tool.reports, tool.seen)
    requires tool.atomicFlags || Agree(inbox)
    modifies tool`emls, tool`index, tool`reports, tool`saved, tool`seen, tool`buf, tool`delivered, tool`marked
    ensures tool.AtLeastOnce()
    ensures p.files <= q.files <= n
    ensures OnTheWay(q, inbox, tool.epoch, tool.atomicFlags, emls0, index0, reports0, tool.emls, tool.index, tool.reports, tool.seen)
    ensures tool.steady ==> code == ExitOk
    ensures code == ExitOk ==> q.files == q.indexed == q.saved == n
    ensures code == ExitOk && !tool.readOnly ==> Uids(inbox[..n]) <= tool.seen
  {
    code := tool.Fetch(inbox[..n]);
    q := RunMovesOn(p, inbox, n, tool.epoch, tool.atomicFlags, code == ExitOk, emls0, index0, reports0,
                    old(tool.emls), old(tool.index), old(tool.reports), old(tool.seen),
                    tool.emls, tool.index, tool.reports, tool.seen);
  }

  /** One more run over the first n messages, crashed or finished, keeps the store on its way and never goes
      back; a finished one has done all of them. */
  lemma RunMovesOn(p: Progress, inbox: seq<Msg>, n: nat, epoch: uint32, atomicFlags: bool, finished: bool,
                   emls0: EmailDir, index0: seq<IndexEntry>, reports0: seq<Report>,
                   emls1: EmailDir, index1: seq<IndexEntry>, reports1: seq<Report>, seen1: set<uint32>,
                   emls: EmailDir, index: seq<IndexEntry>, reports: seq<Report>, seen: set<uint32>)
    returns (q: Progress)
    requires p.files <= n <= |inbox| && DistinctUids(inbox) && Faithful(emls0, epoch, inbox)
    requires OnTheWay(p, inbox, epoch, atomicFlags, emls0, index0, reports0, emls1, index1, reports1, seen1)
    requires FetchEffect(inbox[..n], epoch, atomicFlags, finished, emls1, index1, reports1, seen1, emls, index, reports, seen)
    requires atomicFlags || Agree(inbox)
    ensures p.files <= q.files <= n && p.indexed <= q.indexed && p.saved <= q.saved && p.marked <= q.marked
    ensures OnTheWay(q, inbox, epoch, atomicFlags, emls0, index0, reports0, emls, index, reports, seen)
    ensures finished ==> q.files == q.indexed == q.saved == n
  {
    var f := FilesMoveOn(p.files, inbox, n, epoch, emls0, emls1, emls);
    q := p.(files := f);
    if index != index1 || reports != reports1 || seen != seen1 || finished {
      FilesArrive(p.files, inbox, n, epoch, emls0, emls1);
      MetasArrive(p.indexed, inbox, n, epoch, index0);
      q := q.(files := n, indexed := n);
    }
    if reports != reports1 || seen != seen1 || finished {
      ResentArrives(p, inbox, n, epoch, atomicFlags, emls0, reports0, emls1, seen1, emls);
      q := q.(saved := n);
      UidsOfPrefix(inbox, p.saved, n);
      if seen != seen1 {
        q := q.(marked := n);
        UidsOfPrefix(inbox, p.marked, n);
      }
    }
    UidsOfPrefix(inbox, n, |inbox|);
    assert inbox[..|inbox|] == inbox;
  }

  lemma UidsOfPrefix(inbox: seq<Msg>, k: nat, n: nat)
    requires k <= n <= |inbox|
    ensures Uids(inbox[..k]) <= Uids(inbox[..n])
  {
  }

  lemma FilesMoveOn(k: nat, inbox: seq<Msg>, n: nat, epoch: uint32, emls0: EmailDir, emls1: EmailDir, emls: EmailDir) returns (f: nat)
    requires k <= n <= |inbox| && DistinctUids(inbox)
    requires emls1 == Saved(emls0, epoch, inbox[..k]) && SavedPrefix(emls1, epoch, inbox[..n], emls)
    ensures k <= f <= n && emls == Saved(emls0, epoch, inbox[..f])
  {
    var i: nat :| i <= n && emls == Saved(emls1, epoch, inbox[..n][..i]);
    assert inbox[..n][..i] == inbox[..i];
    SavedAfterPrefix(emls0, epoch, inbox, k, i);
    f := if k < i then i else k;
  }

  lemma FilesArrive(k: nat, inbox: seq<Msg>, n: nat, epoch: uint32, emls0: EmailDir, emls1: EmailDir)
    requires k <= n <= |inbox| && DistinctUids(inbox) && emls1 == Saved(emls0, epoch, inbox[..k])
    ensures Saved(emls1, epoch, inbox[..n]) == Saved(emls0, epoch, inbox[..n])
  {
    SavedAfterPrefix(emls0, epoch, inbox, k, n);
  }

  lemma MetasArrive(k: nat, inbox: seq<Msg>, n: nat, epoch: uint32, index0: seq<IndexEntry>)
    requires k <= n <= |inbox|
    ensures AddMetas(AddMetas(index0, Metas(epoch, inbox[..k])), Metas(epoch, inbox[..n])) == AddMetas(index0, Metas(epoch, inbox[..n]))
  {
    var a, b := Metas(epoch, inbox[..k]), Metas(epoch, inbox[k..n]);
    assert Metas(epoch, inbox[..n]) == a + b;
    AddMetasAppend(index0, a, b);
    AddMetasAppend(AddMetas(index0, a), a, b);
    AddMetasIdempotent(index0, a);
  }

  /** Whatever part of the first n messages a run resends, the reports become those of all n. */
  lemma ResentArrives(p: Progress, inbox: seq<Msg>, n: nat, epoch: uint32, atomicFlags: bool,
                      emls0: EmailDir, reports0: seq<Report>, emls1: EmailDir, seen1: set<uint32>, emls: EmailDir)
    requires p.marked <= p.saved <= p.files <= n <= |inbox| && DistinctUids(inbox) && Faithful(emls0, epoch, inbox)
    requires emls1 == Saved(emls0, epoch, inbox[..p.files]) && emls == Saved(emls0, epoch, inbox[..n])
    requires seen1 * Uids(inbox) <= Uids(inbox[..p.saved])
    requires atomicFlags ==> seen1 * Uids(inbox) == Uids(inbox[..p.marked])
    requires atomicFlags || Agree(inbox)
    ensures Upsert(Upsert(reports0, Inputs(inbox[..p.saved])), Resent(inbox[..n], seen1, emls1, emls, epoch))
            == Upsert(reports0, Inputs(inbox[..n]))
  {
    ResentIsUnmarked(p, inbox, n, epoch, emls0, emls1, seen1, emls);
    var stored, again := Upsert(reports0, Inputs(inbox[..p.saved])), Inputs(Unmarked(inbox[..p.saved], seen1));
    if atomicFlags {
      ResendingTail(reports0, inbox, p.marked, p.saved, seen1);
    } else {
      assert Agree(inbox[..p.saved]);
      ResendKeepsReports(reports0, inbox[..p.saved], seen1);
    }
    assert Upsert(stored, again) == stored;
    UnmarkedSplits(inbox, p.saved, n, seen1);
    var late := inbox[p.saved..n];
    InputsAppend(Unmarked(inbox[..p.saved], seen1), late);
    UpsertAppend(stored, again, Inputs(late));
    InputsSplit(inbox, p.saved, n);
    UpsertAppend(reports0, Inputs(inbox[..p.saved]), Inputs(late));
  }

  /** Marked messages were stored before, so a run resends exactly those that are not marked. */
  lemma ResentIsUnmarked(p: Progress, inbox: seq<Msg>, n: nat, epoch: uint32,
                         emls0: EmailDir, emls1: EmailDir, seen1: set<uint32>, emls: EmailDir)
    requires p.saved <= p.files <= n <= |inbox| && DistinctUids(inbox) && Faithful(emls0, epoch, inbox)
    requires emls1 == Saved(emls0, epoch, inbox[..p.files]) && emls == Saved(emls0, epoch, inbox[..n])
    requires seen1 * Uids(inbox) <= Uids(inbox[..p.saved])
    ensures Resent(inbox[..n], seen1, emls1, emls, epoch) == Inputs(Unmarked(inbox[..n], seen1))
  {
    AllSaved(emls0, epoch, inbox[..n]);
    AllSaved(emls0, epoch, inbox[..p.files]);
    forall i | 0 <= i < n && inbox[i].uid in seen1 ensures Path(epoch, inbox[i]) in emls1 {
      MarkedIsEarly(inbox, p.saved, seen1, i);
      assert inbox[..p.files][i] == inbox[i];
    }
    ResentIsInputs(inbox[..n], seen1, emls1, emls, epoch);
  }

  lemma InputsSplit(inbox: seq<Msg>, k: nat, n: nat)
    requires k <= n <= |inbox|
    ensures Inputs(inbox[..n]) == Inputs(inbox[..k]) + Inputs(inbox[k..n])
  {
    InputsAppend(inbox[..k], inbox[k..n]);
    assert inbox[..k] + inbox[k..n] == inbox[..n];
  }

  lemma MarkedIsEarly(inbox: seq<Msg>, k: nat, seen: set<uint32>, i: nat)
    requires k <= |inbox| && i < |inbox| && DistinctUids(inbox)
    requires seen * Uids(inbox) <= Uids(inbox[..k]) && inbox[i].uid in seen
    ensures i < k
  {
    assert inbox[i] in inbox && inbox[i].uid in seen * Uids(inbox);
    var m :| m in inbox[..k] && m.uid == inbox[i].uid;
    var j :| 0 <= j < k && inbox[j] == m;
  }

  /** All or nothing marks a prefix, and resending the rest of what is saved changes nothing. */
  lemma ResendingTail(reports0: seq<Report>, inbox: seq<Msg>, m: nat, k: nat, seen: set<uint32>)
    requires m <= k <= |inbox| && DistinctUids(inbox) && seen * Uids(inbox) == Uids(inbox[..m])
    ensures var stored := Upsert(reports0, Inputs(inbox[..k])); Upsert(stored, Inputs(Unmarked(inbox[..k], seen))) == stored
  {
    UnmarkedTail(inbox, m, k, seen);
    var a, b := Inputs(inbox[..m]), Inputs(inbox[m..k]);
    InputsSplit(inbox, m, k);
    UpsertAppend(reports0, a, b);
    UpsertIdempotent(Upsert(reports0, a), b);
  }

  lemma UnmarkedTail(inbox: seq<Msg>, m: nat, k: nat, seen: set<uint32>)
    requires m <= k <= |inbox| && DistinctUids(inbox) && seen * Uids(inbox) == Uids(inbox[..m])
    ensures Unmarked(inbox[..k], seen) == inbox[m..k]
  {
    UnmarkedSplits(inbox, m, k, seen);
    AllMarked(inbox[..m], seen);
    assert [] + inbox[m..k] == inbox[m..k];
  }

  /** Beyond what has been saved nothing is marked. */
  lemma {:induction false} UnmarkedSplits(inbox: seq<Msg>, k: nat, n: nat, seen: set<uint32>)
    requires k <= n <= |inbox| && DistinctUids(inbox) && seen * Uids(inbox) <= Uids(inbox[..k])
    ensures Unmarked(inbox[..n], seen) == Unmarked(inbox[..k], seen) + inbox[k..n]
  {
    if k < n {
      UnmarkedSplits(inbox, k, n - 1, seen);
      assert inbox[..n][..n - 1] == inbox[..n - 1];
      if inbox[n - 1].uid in seen {
        MarkedIsEarly(inbox, k, seen, n - 1);
      }
      assert inbox[k..n] == inbox[k..n - 1] + [inbox[n - 1]];
    }
  }

  lemma {:induction false} InputsAppend(a: seq<Msg>, b: seq<Msg>)
    ensures Inputs(a + b) == Inputs(a) + Inputs(b)
  {
    if b == [] {
      assert a + b == a;
    } else {
      AppendLast(a, b);
      InputsAppend(a, b[..|b| - 1]);
    }
  }

  lemma {:induction false} SavedAfterPrefix(emls: EmailDir, epoch: uint32, inbox: seq<Msg>, k: nat, n: nat)
    requires DistinctUids(inbox) && k <= |inbox| && n <= |inbox|
    ensures Saved(Saved(emls, epoch, inbox[..k]), epoch, inbox[..n]) == Saved(emls, epoch, inbox[..if k < n then n else k])
  {
    if n > 0 {
      SavedAfterPrefix(emls, epoch, inbox, k, n - 1);
      assert inbox[..n][..n - 1] == inbox[..n - 1];
      if n <= k {
        SavedHolds(emls, epoch, inbox[..k], n - 1);
      }
    }
  }

  /** With faithful files, a run resends exactly the messages that are not marked yet. */
  lemma {:induction false} ResentIsInputs(inbox: seq<Msg>, seen: set<uint32>, emls0: EmailDir, emls: EmailDir, epoch: uint32)
    requires forall i :: 0 <= i < |inbox| ==> Path(epoch, inbox[i]) in emls && emls[Path(epoch, inbox[i])] == inbox[i].mail
    requires forall i :: 0 <= i < |inbox| && inbox[i].uid in seen ==> Path(epoch, inbox[i]) in emls0
    ensures Resent(inbox, seen, emls0, emls, epoch) == Inputs(Unmarked(inbox, seen))
  {
    if inbox != [] {
      var n := |inbox| - 1;
      ResentIsInputs(inbox[..n], seen, emls0, emls, epoch);
      var init, last := Unmarked(inbox[..n], seen), inbox[n];
      if last.uid !in seen {
        InputsSnoc(init, last);
      } else {
        assert init + [] == init;
      }
    }
  }

  lemma InputsOfOne(m: Msg)
    ensures Inputs([m]) == ReportsOf(m.mail)
  {
    assert [m][..0] == [] && [] + ReportsOf(m.mail) == ReportsOf(m.mail);
  }

  lemma InputsSnoc(msgs: seq<Msg>, m: Msg)
    ensures Inputs(msgs + [m]) == Inputs(msgs) + ReportsOf(m.mail)
  {
    assert (msgs + [m])[..|msgs|] == msgs;
  }

  lemma {:induction false} AllMarked(inbox: seq<Msg>, seen: set<uint32>)
    requires Uids(inbox) <= seen
    ensures Unmarked(inbox, seen) == []
  {
    if inbox != [] {
      var n := |inbox| - 1;
      assert inbox[n] in inbox && inbox[n].uid in Uids(inbox);
      assert Uids(inbox[..n]) <= Uids(inbox);
      AllMarked(inbox[..n], seen);
    }
  }

  lemma {:induction false} UnmarkedAre(inbox: seq<Msg>, seen: set<uint32>, m: Msg)
    ensures m in Unmarked(inbox, seen) <==> m in inbox && m.uid !in seen
  {
    if inbox != [] {
      UnmarkedAre(inbox[..|inbox| - 1], seen, m);
    }
  }

  lemma {:induction false} FindAppend(xs: seq<Report>, ys: seq<Report>, id: string)
    ensures Find(xs + ys, id) == if Find(ys, id).Some? then Find(ys, id) else Find(xs, id)
  {
    var i := LastIndex(ys, id);
    if i >= 0 {
      LastIndexIs(xs + ys, id, |xs| + i);
    } else {
      LastIndexIs(xs + ys, id, LastIndex(xs, id));
    }
  }

  /** A report found in a batch is the one its last carrier gives. */
  lemma {:induction false} FindInInputs(msgs: seq<Msg>, id: string)
    ensures Find(Inputs(msgs), id).Some? ==> exists m :: m in msgs && Find(ReportsOf(m.mail), id) == Find(Inputs(msgs), id)
    ensures forall m :: m in msgs && Find(ReportsOf(m.mail), id).Some? ==> Find(Inputs(msgs), id).Some?
  {
    if msgs != [] {
      var init, last := msgs[..|msgs| - 1], msgs[|msgs| - 1];
      FindInInputs(init, id);
      FindAppend(Inputs(init), ReportsOf(last.mail), id);
      if Find(ReportsOf(last.mail), id).Some? {
        assert last in msgs;
      } else if Find(Inputs(msgs), id).Some? {
        var m :| m in init && Find(ReportsOf(m.mail), id) == Find(Inputs(init), id);
        assert m in msgs;
      }
    }
  }

  /** After a full batch, resending any part of it leaves the reports alone when the messages agree. */
  lemma ResendKeepsReports(reports: seq<Report>, inbox: seq<Msg>, seen: set<uint32>)
    requires Agree(inbox)
    ensures Upsert(Upsert(reports, Inputs(inbox)), Inputs(Unmarked(inbox, seen))) == Upsert(reports, Inputs(inbox))
  {
    var full, again := Upsert(reports, Inputs(inbox)), Inputs(Unmarked(inbox, seen));
    forall x | x in again ensures Find(full, x.id) == Find(again, x.id) {
      FindAfterUpsert(reports, Inputs(inbox), x.id);
      FindInInputs(inbox, x.id);
      FindInInputs(Unmarked(inbox, seen), x.id);
      var k :| 0 <= k < |again| && again[k] == x;
      assert LastIndex(again, x.id) >= k;
      var m :| m in Unmarked(inbox, seen) && Find(ReportsOf(m.mail), x.id) == Find(again, x.id);
      UnmarkedAre(inbox, seen, m);
      var m' :| m' in inbox && Find(ReportsOf(m'.mail), x.id) == Find(Inputs(inbox), x.id);
      assert AgreeOn(m, m', x.id);
    }
    UpsertUnchangedIff(full, again);
  }

  /** Two messages that disagree on a report: resending one of them alone changes what is stored. */
  lemma DisagreementSurfaces(reports: seq<Report>, inbox: seq<Msg>, m: Msg, m': Msg, id: string) returns (seen: set<uint32>)
    requires DistinctUids(inbox) && m in inbox && m' in inbox && !AgreeOn(m, m', id)
    ensures Upsert(Upsert(reports, Inputs(inbox)), Inputs(Unmarked(inbox, seen))) != Upsert(reports, Inputs(inbox))
  {
    var full := Upsert(reports, Inputs(inbox));
    var odd := if Find(full, id) == Find(ReportsOf(m.mail), id) then m' else m;
    var k :| 0 <= k < |inbox| && inbox[k] == odd;
    seen := Uids(inbox) - {odd.uid};
    OnlyUnmarked(inbox, seen, k);
    InputsOfOne(odd);
    FindAfterUpsert(full, ReportsOf(odd.mail), id);
  }

  /** Exactly when: if the server flags messages one by one, the reports survive every crash during
      MarkSeen if and only if no two messages disagree on a report. */
  lemma ResendKeepsReportsIff(reports: seq<Report>, inbox: seq<Msg>)
    requires DistinctUids(inbox)
    ensures Agree(inbox) <==>
            forall seen: set<uint32> :: Upsert(Upsert(reports, Inputs(inbox)), Inputs(Unmarked(inbox, seen))) == Upsert(reports, Inputs(inbox))
  {
    if Agree(inbox) {
      forall seen: set<uint32> ensures
          Upsert(Upsert(reports, Inputs(inbox)), Inputs(Unmarked(inbox, seen))) == Upsert(reports, Inputs(inbox))
      {
        ResendKeepsReports(reports, inbox, seen);
      }
    } else {
      var m, m', id :| m in inbox && m' in inbox && !AgreeOn(m, m', id);
      var seen := DisagreementSurfaces(reports, inbox, m, m', id);
    }
  }

  lemma {:induction false} OnlyUnmarked(inbox: seq<Msg>, seen: set<uint32>, k: nat)
    requires DistinctUids(inbox) && k < |inbox|
    requires forall i :: 0 <= i < |inbox| ==> (inbox[i].uid in seen <==> i != k)
    ensures Unmarked(inbox, seen) == [inbox[k]]
  {
    var n := |inbox| - 1;
    if k < n {
      OnlyUnmarked(inbox[..n], seen, k);
    } else {
      AllMarked(inbox[..n], seen);
    }
  }
}
