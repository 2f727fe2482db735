/** LoadEmails and cmd/tlsrpt-digest/reprocess.go: rebuilding index and reports from the stored files. */
module Reprocess {
  import opened Types
  import opened Reports
  import opened EmailPaths

  /** A file below emails/, in the order of the directory walk. */
  datatype StoredFile = StoredFile(rel: string, mail: Mail)

  datatype LoadedEmail = LoadedEmail(uid: uint32, uidValidity: uint32, date: Time, mail: Mail)

  /** loadIndexedEmailDates: a map, so a later entry replaces an earlier one. */
  function IndexedDate(index: seq<IndexEntry>, key: EmailKey): Option<Time> {
    if index == [] then None
    else if KeyOf(index[|index| - 1]) == key then Some(index[|index| - 1].date)
    else IndexedDate(index[..|index| - 1], key)
  }

  /** One file of the walk: loaded, or an error that concerns only this file. */
  function LoadOne(f: StoredFile, index: seq<IndexEntry>): Option<LoadedEmail> {
    match ParseEmailPath(f.rel)
    case InvalidPath => None
    case BadMonth(uid, uv) =>
      var date := IndexedDate(index, EmailKey(uid, uv));
      if date.None? || f.mail.NotAMessage? then None else Some(LoadedEmail(uid, uv, date.value, f.mail))
    case ValidPath(p) =>
      var date := IndexedDate(index, EmailKey(p.uid, p.uidValidity));
      if f.mail.NotAMessage? then None
      else Some(LoadedEmail(p.uid, p.uidValidity, if date.Some? then date.value else FallbackDate(p), f.mail))
  }

  function Loaded(walk: seq<StoredFile>, index: seq<IndexEntry>): seq<LoadedEmail> {
    if walk == [] then []
    else
      var one := LoadOne(walk[|walk| - 1], index);
      Loaded(walk[..|walk| - 1], index) + if one.Some? then [one.value] else []
  }

  method LoadEmails(walk: seq<StoredFile>, index: seq<IndexEntry>) returns (emails: seq<LoadedEmail>, failures: nat)
    ensures emails == Loaded(walk, index)
    ensures failures + |emails| == |walk|
    // a well-named message is loaded under the date the index has last, or else under the start of its month
    ensures forall f :: f in walk && ParseEmailPath(f.rel).ValidPath? && !f.mail.NotAMessage? ==>
              var p := ParseEmailPath(f.rel).path;
              exists e :: e in emails && e.uid == p.uid && e.uidValidity == p.uidValidity && e.mail == f.mail
                          && DatedBy(index, p, e.date)
    // and nothing is loaded that is not a message in the walk
    ensures forall e :: e in emails ==> !e.mail.NotAMessage? && exists f :: f in walk && f.mail == e.mail
  {
    LoadedMeans(walk, index);
    var dates: map<EmailKey, Time> := map[];
    for i := 0 to |index|
      invariant forall key :: key in dates ==> IndexedDate(index[..i], key) == Some(dates[key])
      invariant forall key :: IndexedDate(index[..i], key).Some? ==> key in dates
    {
      assert index[..i + 1][..i] == index[..i];
      dates := dates[KeyOf(index[i]) := index[i].date];
    }
    assert index[..|index|] == index;
    emails, failures := [], 0;
    for k := 0 to |walk|
      invariant emails == Loaded(walk[..k], index)
      invariant failures + |emails| == k
    {
      assert walk[..k + 1][..k] == walk[..k];
      var one := LoadFile(walk[k], index, dates);
      if one.Some? {
        emails := emails + [one.value];
      } else {
        failures := failures + 1;
      }
    }
    assert walk[..|walk|] == walk;
  }

  /** The date is that of the last index entry of the email, or without one the start of the month. */
  ghost predicate DatedBy(index: seq<IndexEntry>, p: EmailPath, date: Time) {
    || (exists k :: 0 <= k < |index| && index[k] == IndexEntry(p.uid, p.uidValidity, date)
                    && forall j :: k < j < |index| ==> index[j].uid != p.uid || index[j].uidValidity != p.uidValidity)
    || ((forall e :: e in index ==> e.uid != p.uid || e.uidValidity != p.uidValidity) && date == Time(p.year, p.month, 0))
  }

  lemma {:induction false} IndexedDateIs(index: seq<IndexEntry>, key: EmailKey)
    ensures match IndexedDate(index, key)
            case None => forall e :: e in index ==> e.uid != key.uid || e.uidValidity != key.uidValidity
            case Some(date) =>
              exists k :: 0 <= k < |index| && index[k] == IndexEntry(key.uid, key.uidValidity, date)
                          && forall j :: k < j < |index| ==> index[j].uid != key.uid || index[j].uidValidity != key.uidValidity
  {
    if index != [] {
      var n := |index| - 1;
      if KeyOf(index[n]) == key {
        assert index[n] == IndexEntry(key.uid, key.uidValidity, index[n].date);
      } else {
        IndexedDateIs(index[..n], key);
        if IndexedDate(index[..n], key).Some? {
          var date := IndexedDate(index[..n], key).value;
          var k :| 0 <= k < n && index[..n][k] == IndexEntry(key.uid, key.uidValidity, date)
                   && forall j :: k < j < n ==> index[..n][j].uid != key.uid || index[..n][j].uidValidity != key.uidValidity;
          assert forall j :: k < j < n ==> index[..n][j] == index[j];
          assert index[k] == IndexEntry(key.uid, key.uidValidity, date);
        }
      }
    }
  }

  lemma LoadedMeans(walk: seq<StoredFile>, index: seq<IndexEntry>)
    ensures forall f :: f in walk && ParseEmailPath(f.rel).ValidPath? && !f.mail.NotAMessage? ==>
              var p := ParseEmailPath(f.rel).path;
              exists e :: e in Loaded(walk, index) && e.uid == p.uid && e.uidValidity == p.uidValidity && e.mail == f.mail
                          && DatedBy(index, p, e.date)
    ensures forall e :: e in Loaded(walk, index) ==> !e.mail.NotAMessage? && exists f :: f in walk && f.mail == e.mail
  {
    forall f | f in walk && ParseEmailPath(f.rel).ValidPath? && !f.mail.NotAMessage?
      ensures var p := ParseEmailPath(f.rel).path;
        exists e :: e in Loaded(walk, index) && e.uid == p.uid && e.uidValidity == p.uidValidity && e.mail == f.mail
                    && DatedBy(index, p, e.date)
    {
      var p := ParseEmailPath(f.rel).path;
      var e := LoadOne(f, index).value;
      LoadedFrom(walk, index, e);
      IndexedDateIs(index, EmailKey(p.uid, p.uidValidity));
      assert DatedBy(index, p, e.date);
    }
    forall e | e in Loaded(walk, index) ensures !e.mail.NotAMessage? && exists f :: f in walk && f.mail == e.mail {
      LoadedFrom(walk, index, e);
      var f :| f in walk && LoadOne(f, index) == Some(e);
      assert f in walk && f.mail == e.mail;
    }
  }

  method LoadFile(f: StoredFile, ghost index: seq<IndexEntry>, dates: map<EmailKey, Time>) returns (r: Option<LoadedEmail>)
    requires forall key :: key in dates ==> IndexedDate(index, key) == Some(dates[key])
    requires forall key :: IndexedDate(index, key).Some? ==> key in dates
    ensures r == LoadOne(f, index)
  {
    var parsed := ParseEmailPath(f.rel);
    if parsed.InvalidPath? {
      return None;
    }
    var key := if parsed.ValidPath? then EmailKey(parsed.path.uid, parsed.path.uidValidity)
               else EmailKey(parsed.uid, parsed.uidValidity);
    var date: Time;
    if key in dates {
      date := dates[key];
    } else if parsed.ValidPath? {
      date := FallbackDate(parsed.path);
    } else {
      return None;
    }
    if f.mail.NotAMessage? {
      return None;
    }
    return Some(LoadedEmail(key.uid, key.uidValidity, date, f.mail));
  }

  /** buildReprocessMetas: a zero date is skipped. */
  function MetasOf(emails: seq<LoadedEmail>): seq<IndexEntry> {
    if emails == [] then []
    else
      var e := emails[|emails| - 1];
      MetasOf(emails[..|emails| - 1]) + if e.date.IsZero() then [] else [IndexEntry(e.uid, e.uidValidity, e.date)]
  }

  function InputsOf(emails: seq<LoadedEmail>): seq<Report> {
    if emails == [] then []
    else
      var e := emails[|emails| - 1];
      InputsOf(emails[..|emails| - 1]) + ReportsOf(e.mail)
  }

  method BuildReprocessMetas(emails: seq<LoadedEmail>) returns (metas: seq<IndexEntry>)
    ensures metas == MetasOf(emails)
  {
    metas := [];
    for i := 0 to |emails|
      invariant metas == MetasOf(emails[..i])
    {
      assert emails[..i + 1][..i] == emails[..i];
      if !emails[i].date.IsZero() {
        metas := metas + [IndexEntry(emails[i].uid, emails[i].uidValidity, emails[i].date)];
      }
    }
    assert emails[..|emails|] == emails;
  }

  method ReprocessCollectReports(emails: seq<LoadedEmail>) returns (reports: seq<Report>)
    ensures reports == InputsOf(emails)
  {
    reports := [];
    for i := 0 to |emails|
      invariant reports == InputsOf(emails[..i])
    {
      assert emails[..i + 1][..i] == emails[..i];
      if emails[i].mail.Readable? {
        var atts := emails[i].mail.attachments;
        var before := reports;
        for k := 0 to |atts|
          invariant reports == before + ReportsIn(atts[..k])
        {
          assert atts[..k + 1][..k] == atts[..k];
          if atts[k].Tlsrpt? {
            reports := reports + [atts[k].report];
          }
        }
        assert atts[..|atts|] == atts;
      }
    }
    assert emails[..|emails|] == emails;
  }

  /** The whole command on the data file. */
  method Run(walk: seq<StoredFile>, df: DataFile) returns (after: DataFile)
    ensures after == Rebuilt(walk, df)
    // in plain words: reports come from the messages in the walk alone, and those of every well-named one are there
    ensures forall r :: r in after.reports ==> r in df.reports || exists f :: f in walk && Carries(f.mail, r)
    ensures forall f :: f in walk && ParseEmailPath(f.rel).ValidPath? ==>
              forall r :: Carries(f.mail, r) ==> exists s :: s in after.reports && s.id == r.id
    // no entry is lost, and each well-named message with a date has one
    ensures df.index <= after.index
    ensures forall f :: f in walk && ParseEmailPath(f.rel).ValidPath? && !f.mail.NotAMessage? && ParseEmailPath(f.rel).path.year > 1 ==>
              var p := ParseEmailPath(f.rel).path;
              exists e :: e in after.index && e.uid == p.uid && e.uidValidity == p.uidValidity
  {
    after := RebuildFrom(walk, df);
    RebuiltMeans(walk, df, after);
  }

  method RebuildFrom(walk: seq<StoredFile>, df: DataFile) returns (after: DataFile)
    ensures after == Rebuilt(walk, df)
  {
    var emails, _ := LoadEmails(walk, df.index);
    var metas := BuildReprocessMetas(emails);
    MetasAreDated(emails);
    var saved := SaveEmailMetas(df.index, metas);
    var inputs := ReprocessCollectReports(emails);
    var reports := SaveReports(df.reports, inputs);
    return DataFile(reports, saved.index);
  }

  function Rebuilt(walk: seq<StoredFile>, df: DataFile): DataFile {
    var emails := Loaded(walk, df.index);
    DataFile(Upsert(df.reports, InputsOf(emails)), AddMetas(df.index, MetasOf(emails)))
  }

  lemma RebuiltMeans(walk: seq<StoredFile>, df: DataFile, after: DataFile)
    requires after == Rebuilt(walk, df)
    ensures forall r :: r in after.reports ==> r in df.reports || exists f :: f in walk && Carries(f.mail, r)
    ensures forall f :: f in walk && ParseEmailPath(f.rel).ValidPath? ==>
              forall r :: Carries(f.mail, r) ==> exists s :: s in after.reports && s.id == r.id
    ensures df.index <= after.index
    ensures forall f :: f in walk && ParseEmailPath(f.rel).ValidPath? && !f.mail.NotAMessage? && ParseEmailPath(f.rel).path.year > 1 ==>
              var p := ParseEmailPath(f.rel).path;
              exists e :: e in after.index && e.uid == p.uid && e.uidValidity == p.uidValidity
  {
    var emails := Loaded(walk, df.index);
    LoadedMeans(walk, df.index);
    UpsertMeans(df.reports, InputsOf(emails));
    AddMetasFirstWins(df.index, MetasOf(emails));
    forall r | r in InputsOf(emails) ensures exists f :: f in walk && Carries(f.mail, r) {
      var e := InputSource(emails, r);
      var f :| f in walk && f.mail == e.mail;
      assert Carries(f.mail, r);
    }
    forall f, r | f in walk && ParseEmailPath(f.rel).ValidPath? && Carries(f.mail, r)
      ensures exists s :: s in after.reports && s.id == r.id
    {
      var p := ParseEmailPath(f.rel).path;
      var e :| e in emails && e.uid == p.uid && e.uidValidity == p.uidValidity && e.mail == f.mail && DatedBy(df.index, p, e.date);
      ReportsInAre(e.mail.attachments, r);
      ReportLoaded(emails, e, r);
      FindAfterUpsert(df.reports, InputsOf(emails), r.id);
      var k :| 0 <= k < |InputsOf(emails)| && InputsOf(emails)[k] == r;
      assert LastIndex(InputsOf(emails), r.id) >= k;
    }
    forall f | f in walk && ParseEmailPath(f.rel).ValidPath? && !f.mail.NotAMessage? && ParseEmailPath(f.rel).path.year > 1
      ensures var p := ParseEmailPath(f.rel).path;
        exists e :: e in after.index && e.uid == p.uid && e.uidValidity == p.uidValidity
    {
      EntryRebuilt(walk, df, f);
    }
  }

  lemma EntryRebuilt(walk: seq<StoredFile>, df: DataFile, f: StoredFile)
    requires f in walk && ParseEmailPath(f.rel).ValidPath? && !f.mail.NotAMessage? && ParseEmailPath(f.rel).path.year > 1
    ensures var p := ParseEmailPath(f.rel).path;
      exists e :: e in Rebuilt(walk, df).index && e.uid == p.uid && e.uidValidity == p.uidValidity
  {
    var p, emails := ParseEmailPath(f.rel).path, Loaded(walk, df.index);
    AddMetasFirstWins(df.index, MetasOf(emails));
    if e :| e in df.index && e.uid == p.uid && e.uidValidity == p.uidValidity {
      assert e in Rebuilt(walk, df).index;
    } else {
      IndexedDateIs(df.index, EmailKey(p.uid, p.uidValidity));
      var e := LoadOne(f, df.index).value;
      LoadedFrom(walk, df.index, e);
      InMetas(emails, IndexEntry(e.uid, e.uidValidity, e.date));
      assert Indexed(MetasOf(emails), EmailKey(p.uid, p.uidValidity));
      assert EmailKey(p.uid, p.uidValidity) in Keys(Rebuilt(walk, df).index);
      var entry :| entry in Rebuilt(walk, df).index && KeyOf(entry) == EmailKey(p.uid, p.uidValidity);
    }
  }

  lemma {:induction false} InputSource(emails: seq<LoadedEmail>, r: Report) returns (e: LoadedEmail)
    requires r in InputsOf(emails)
    ensures e in emails && Carries(e.mail, r)
  {
    var n := |emails| - 1;
    if r in InputsOf(emails[..n]) {
      e := InputSource(emails[..n], r);
    } else {
      e := emails[n];
      ReportsInAre(e.mail.attachments, r);
    }
  }

  lemma {:induction false} MetasAreDated(emails: seq<LoadedEmail>)
    ensures forall m :: m in MetasOf(emails) ==> !m.date.IsZero()
  {
    if emails != [] {
      MetasAreDated(emails[..|emails| - 1]);
    }
  }

  lemma {:induction false} IndexedDateIff(index: seq<IndexEntry>, key: EmailKey)
    ensures IndexedDate(index, key).Some? <==> key in Keys(index)
  {
    if index != [] {
      var init, last := index[..|index| - 1], index[|index| - 1];
      IndexedDateIff(init, key);
      KeysSnoc(init, last);
      assert index == init + [last];
    }
  }

  /** A stored file without an index entry is indexed again under a date whose path is its own, so gc later
      deletes it at its true location. */
  lemma OrphanFoundAgain(walk: seq<StoredFile>, index: seq<IndexEntry>, f: StoredFile, p: EmailPath)
    requires f in walk && f.rel == BuildEmailPath(p) && !f.mail.NotAMessage?
    requires EmailKey(p.uid, p.uidValidity) !in Keys(index) && !FallbackDate(p).IsZero()
    requires forall g :: g in walk && g.rel != f.rel && !ParseEmailPath(g.rel).InvalidPath? ==>
               KeyOfPath(g.rel) != EmailKey(p.uid, p.uidValidity)
    ensures var again := AddMetas(index, MetasOf(Loaded(walk, index)));
      && EmailKey(p.uid, p.uidValidity) in Keys(again)
      && forall m :: m in again && KeyOf(m) == EmailKey(p.uid, p.uidValidity) ==> BuildEmailPath(PathOf(m)) == f.rel
  {
    var key, metas := EmailKey(p.uid, p.uidValidity), MetasOf(Loaded(walk, index));
    var own := IndexEntry(p.uid, p.uidValidity, FallbackDate(p));
    PathRoundTrip(own);
    IndexedDateIff(index, key);
    var e := LoadOne(f, index).value;
    LoadedFrom(walk, index, e);
    InMetas(Loaded(walk, index), own);
    assert Indexed(metas, key);
    AddMetasFirstWins(index, metas);
    forall m | m in AddMetas(index, metas) && KeyOf(m) == key ensures BuildEmailPath(PathOf(m)) == f.rel {
      assert m in index ==> Indexed(index, key);
      OnlySource(walk, index, f, m);
    }
  }

  lemma OnlySource(walk: seq<StoredFile>, index: seq<IndexEntry>, f: StoredFile, m: IndexEntry)
    requires m in MetasOf(Loaded(walk, index)) && KeyOf(m) !in Keys(index)
    requires forall g :: g in walk && g.rel != f.rel && !ParseEmailPath(g.rel).InvalidPath? ==> KeyOfPath(g.rel) != KeyOf(m)
    ensures ParseEmailPath(f.rel).ValidPath? && PathOf(m) == ParseEmailPath(f.rel).path
  {
    InMetas(Loaded(walk, index), m);
    var e :| e in Loaded(walk, index) && !e.date.IsZero() && m == IndexEntry(e.uid, e.uidValidity, e.date);
    LoadedFrom(walk, index, e);
    var g :| g in walk && LoadOne(g, index) == Some(e);
    IndexedDateIff(index, KeyOf(m));
    assert KeyOfPath(g.rel) == KeyOf(m);
  }

  /** A larger index loads at least the same files, with the same mail. */
  lemma {:induction false} LoadedReportsStay(walk: seq<StoredFile>, index: seq<IndexEntry>, more: seq<IndexEntry>)
    requires Keys(index) <= Keys(more)
    requires forall f :: f in walk && LoadOne(f, more).Some? ==> LoadOne(f, index).Some?
    ensures InputsOf(Loaded(walk, more)) == InputsOf(Loaded(walk, index))
  {
    if walk != [] {
      var n := |walk| - 1;
      LoadedReportsStay(walk[..n], index, more);
      LoadOneStays(walk[n], index, more);
      assert walk[n] in walk;
      var a, b := Loaded(walk[..n], more), Loaded(walk[..n], index);
      if LoadOne(walk[n], index).Some? {
        assert (a + [LoadOne(walk[n], more).value])[..|a|] == a;
        assert (b + [LoadOne(walk[n], index).value])[..|b|] == b;
      } else {
        assert a + [] == a && b + [] == b;
      }
    }
  }

  lemma LoadOneStays(f: StoredFile, index: seq<IndexEntry>, more: seq<IndexEntry>)
    requires Keys(index) <= Keys(more)
    ensures LoadOne(f, index).Some? ==> LoadOne(f, more).Some?
    ensures LoadOne(f, index).Some? ==>
              var a, b := LoadOne(f, index).value, LoadOne(f, more).value; a.uid == b.uid && a.uidValidity == b.uidValidity && a.mail == b.mail
  {
    match ParseEmailPath(f.rel) {
      case InvalidPath =>
      case BadMonth(uid, uv) =>
        IndexedDateIff(index, EmailKey(uid, uv));
        IndexedDateIff(more, EmailKey(uid, uv));
      case ValidPath(p) =>
    }
  }

  lemma {:induction false} LoadedFrom(walk: seq<StoredFile>, index: seq<IndexEntry>, e: LoadedEmail)
    ensures e in Loaded(walk, index) <==> exists f :: f in walk && LoadOne(f, index) == Some(e)
  {
    if walk != [] {
      var n := |walk| - 1;
      LoadedFrom(walk[..n], index, e);
      assert walk == walk[..n] + [walk[n]];
    }
  }

  lemma {:induction false} InMetas(emails: seq<LoadedEmail>, m: IndexEntry)
    ensures m in MetasOf(emails) <==>
            exists e :: e in emails && !e.date.IsZero() && m == IndexEntry(e.uid, e.uidValidity, e.date)
  {
    if emails != [] {
      var n := |emails| - 1;
      InMetas(emails[..n], m);
      assert emails == emails[..n] + [emails[n]];
    }
  }

  /** A file loaded with the rewritten index has its key in it: it was indexed, or loaded and then indexed. */
  lemma MetaKeyKnown(walk: seq<StoredFile>, index: seq<IndexEntry>, more: seq<IndexEntry>, m: IndexEntry)
    requires more == AddMetas(index, MetasOf(Loaded(walk, index)))
    requires m in MetasOf(Loaded(walk, more))
    ensures KeyOf(m) in Keys(more)
  {
    if KeyOf(m) !in Keys(more) {
      AddMetasFirstWins(index, MetasOf(Loaded(walk, index)));
      MetaFromUnindexed(walk, index, more, m);
    }
  }

  /** An entry neither index knows was loaded with the fallback date, whichever index was read. */
  lemma MetaFromUnindexed(walk: seq<StoredFile>, index: seq<IndexEntry>, more: seq<IndexEntry>, m: IndexEntry)
    requires KeyOf(m) !in Keys(index) && KeyOf(m) !in Keys(more)
    requires m in MetasOf(Loaded(walk, more))
    ensures m in MetasOf(Loaded(walk, index))
  {
    InMetas(Loaded(walk, more), m);
    var e :| e in Loaded(walk, more) && !e.date.IsZero() && m == IndexEntry(e.uid, e.uidValidity, e.date);
    LoadedFrom(walk, more, e);
    var f :| f in walk && LoadOne(f, more) == Some(e);
    IndexedDateIff(more, KeyOf(m));
    IndexedDateIff(index, KeyOf(m));
    LoadedFrom(walk, index, e);
    InMetas(Loaded(walk, index), m);
  }

  function KeyOfPath(rel: string): EmailKey
    requires !ParseEmailPath(rel).InvalidPath?
  {
    var parsed := ParseEmailPath(rel);
    if parsed.ValidPath? then EmailKey(parsed.path.uid, parsed.path.uidValidity) else EmailKey(parsed.uid, parsed.uidValidity)
  }

  /** An unindexed file whose month directory gives no date, and a second file of the same email that does. */
  predicate Twins(f: string, g: string, index: seq<IndexEntry>) {
    && ParseEmailPath(f).BadMonth? && ParseEmailPath(g).ValidPath?
    && KeyOfPath(f) == KeyOfPath(g) && KeyOfPath(f) !in Keys(index)
    && !FallbackDate(ParseEmailPath(g).path).IsZero()
  }

  predicate NoTwins(rels: seq<string>, index: seq<IndexEntry>) {
    forall f, g :: f in rels && g in rels ==> !Twins(f, g, index)
  }

  /** They exist. */
  lemma TwinsExist()
    ensures Twins("1/x/1.eml", "1/202605/1.eml", [])
  {
    NotCanonical();
    ParseFirst("x");
    assert "1" + [SEP] + "x" + [SEP] + "1.eml" == "1/x/1.eml";
  }

  function Walk(rels: seq<string>, mails: seq<Mail>): seq<StoredFile>
    requires |mails| == |rels|
  {
    seq(|rels|, i requires 0 <= i < |rels| => StoredFile(rels[i], mails[i]))
  }

  /** Without twins, what the new index lets a run load could be loaded before. */
  lemma NothingNewToLoad(rels: seq<string>, mails: seq<Mail>, index: seq<IndexEntry>, f: StoredFile)
    requires |mails| == |rels| && NoTwins(rels, index) && f in Walk(rels, mails)
    requires LoadOne(f, AddMetas(index, MetasOf(Loaded(Walk(rels, mails), index)))).Some?
    ensures LoadOne(f, index).Some?
  {
    var walk := Walk(rels, mails);
    var metas := MetasOf(Loaded(walk, index));
    if ParseEmailPath(f.rel).BadMonth? {
      var key := KeyOfPath(f.rel);
      AddMetasFirstWins(index, metas);
      IndexedDateIff(AddMetas(index, metas), key);
      IndexedDateIff(index, key);
      if key !in Keys(index) {
        var m :| m in metas && KeyOf(m) == key;
        InMetas(Loaded(walk, index), m);
        var e :| e in Loaded(walk, index) && !e.date.IsZero() && m == IndexEntry(e.uid, e.uidValidity, e.date);
        LoadedFrom(walk, index, e);
        var g :| g in walk && LoadOne(g, index) == Some(e);
        assert f.rel in rels && g.rel in rels;
        assert Twins(f.rel, g.rel, index);
        assert false;
      }
    }
  }

  /** A second reprocess run changes neither the index nor the reports, whatever the files contain. */
  lemma SecondRunChangesNothing(rels: seq<string>, mails: seq<Mail>, df: DataFile)
    requires |mails| == |rels| && NoTwins(rels, df.index)
    ensures Rebuilt(Walk(rels, mails), Rebuilt(Walk(rels, mails), df)) == Rebuilt(Walk(rels, mails), df)
  {
    var walk := Walk(rels, mails);
    var once := Rebuilt(walk, df);
    AddMetasFirstWins(df.index, MetasOf(Loaded(walk, df.index)));
    forall f | f in walk && LoadOne(f, once.index).Some? ensures LoadOne(f, df.index).Some? {
      NothingNewToLoad(rels, mails, df.index, f);
    }
    LoadedReportsStay(walk, df.index, once.index);
    UpsertIdempotent(df.reports, InputsOf(Loaded(walk, df.index)));
    SecondIndex(walk, df.index);
  }

  /** The index never changes in a second run. */
  lemma SecondIndex(walk: seq<StoredFile>, index: seq<IndexEntry>)
    ensures var once := AddMetas(index, MetasOf(Loaded(walk, index))); AddMetas(once, MetasOf(Loaded(walk, once))) == once
  {
    var once := AddMetas(index, MetasOf(Loaded(walk, index)));
    var metas := MetasOf(Loaded(walk, once));
    forall key | key in Keys(metas) ensures key in Keys(once) {
      var m :| m in metas && KeyOf(m) == key;
      MetaKeyKnown(walk, index, once, m);
    }
    AddMetasUnchanged(once, metas);
  }

  lemma {:induction false} FreshId(rs: seq<Report>) returns (id: string)
    ensures forall r :: r in rs ==> |r.id| < |id|
  {
    if rs == [] {
      id := "";
    } else {
      id := FreshId(rs[..|rs| - 1]);
      var last := rs[|rs| - 1];
      id := (if |last.id| < |id| then id else last.id) + "x";
      assert forall r :: r in rs ==> r in rs[..|rs| - 1] || r == last;
    }
  }

  /** The dated twin is loaded and indexed by the first run. */
  lemma TwinIsIndexed(walk: seq<StoredFile>, index: seq<IndexEntry>, f: string, g: StoredFile)
    requires g in walk && Twins(f, g.rel, index) && !g.mail.NotAMessage?
    ensures KeyOfPath(f) in Keys(AddMetas(index, MetasOf(Loaded(walk, index))))
  {
    var key := KeyOfPath(f);
    IndexedDateIff(index, key);
    var e := LoadOne(g, index).value;
    LoadedFrom(walk, index, e);
    var m := IndexEntry(e.uid, e.uidValidity, e.date);
    InMetas(Loaded(walk, index), m);
    AddMetasFirstWins(index, MetasOf(Loaded(walk, index)));
    assert KeyOf(m) == key && Indexed(MetasOf(Loaded(walk, index)), key);
  }

  /** Once its key is indexed the undated twin is loaded too, with its report. */
  lemma TwinLoads(walk: seq<StoredFile>, index: seq<IndexEntry>, f: StoredFile, report: Report)
    requires f in walk && ParseEmailPath(f.rel).BadMonth? && KeyOfPath(f.rel) in Keys(index)
    requires f.mail == Readable([Tlsrpt(report)])
    ensures Find(InputsOf(Loaded(walk, index)), report.id).Some?
  {
    IndexedDateIff(index, KeyOfPath(f.rel));
    var e := LoadOne(f, index).value;
    LoadedFrom(walk, index, e);
    assert ReportsIn([Tlsrpt(report)]) == [report] by {
      assert [Tlsrpt(report)][..0] == [];
    }
    var inputs := InputsOf(Loaded(walk, index));
    ReportLoaded(Loaded(walk, index), e, report);
    var k :| 0 <= k < |inputs| && inputs[k] == report;
    assert LastIndex(inputs, report.id) >= k;
  }

  /** Files that are all readable and empty, but for one report in f. */
  function OneReportIn(rels: seq<string>, f: string, report: Report): seq<Mail> {
    seq(|rels|, i requires 0 <= i < |rels| => Readable(if rels[i] == f then [Tlsrpt(report)] else []))
  }

  /** Twins break it: the first run indexes the dated twin, so the second one also loads the undated twin. */
  lemma TwinsChangeSecondRun(rels: seq<string>, df: DataFile, f: string, g: string) returns (mails: seq<Mail>)
    requires f in rels && g in rels && Twins(f, g, df.index)
    ensures |mails| == |rels|
    ensures Rebuilt(Walk(rels, mails), Rebuilt(Walk(rels, mails), df)) != Rebuilt(Walk(rels, mails), df)
  {
    var id := FreshId(df.reports);
    var report := Report(id, Time(2026, 5, 0), []);
    mails := OneReportIn(rels, f, report);
    var walk := Walk(rels, mails);
    var once := Rebuilt(walk, df);
    FirstRunSkipsTwin(rels, df.index, f, report);
    assert once.reports == df.reports;
    SecondRunLoadsTwin(rels, df.index, f, g, report);
    FindAfterUpsert(once.reports, InputsOf(Loaded(walk, once.index)), id);
    assert Find(df.reports, id).None?;
  }

  lemma FirstRunSkipsTwin(rels: seq<string>, index: seq<IndexEntry>, f: string, report: Report)
    requires ParseEmailPath(f).BadMonth? && KeyOfPath(f) !in Keys(index)
    ensures InputsOf(Loaded(Walk(rels, OneReportIn(rels, f, report)), index)) == []
  {
    IndexedDateIff(index, KeyOfPath(f));
    OnlyFrom(Walk(rels, OneReportIn(rels, f, report)), index, f, report);
  }

  lemma SecondRunLoadsTwin(rels: seq<string>, index: seq<IndexEntry>, f: string, g: string, report: Report)
    requires f in rels && g in rels && Twins(f, g, index)
    ensures var walk := Walk(rels, OneReportIn(rels, f, report));
            Find(InputsOf(Loaded(walk, AddMetas(index, MetasOf(Loaded(walk, index))))), report.id).Some?
  {
    var walk := Walk(rels, OneReportIn(rels, f, report));
    var i :| 0 <= i < |rels| && rels[i] == f;
    var j :| 0 <= j < |rels| && rels[j] == g;
    assert walk[i] in walk && walk[j] in walk;
    TwinIsIndexed(walk, index, f, walk[j]);
    TwinLoads(walk, AddMetas(index, MetasOf(Loaded(walk, index))), walk[i], report);
  }

  lemma {:induction false} OnlyFrom(walk: seq<StoredFile>, index: seq<IndexEntry>, f: string, report: Report)
    requires forall s :: s in walk && s.rel != f ==> s.mail == Readable([])
    requires forall s :: s in walk && s.rel == f ==> LoadOne(s, index).None?
    ensures InputsOf(Loaded(walk, index)) == []
  {
    if walk != [] {
      var n := |walk| - 1;
      OnlyFrom(walk[..n], index, f, report);
      assert walk[n] in walk;
      var init := Loaded(walk[..n], index);
      if LoadOne(walk[n], index).Some? {
        assert (init + [LoadOne(walk[n], index).value])[..|init|] == init;
      } else {
        assert init + [] == init;
      }
    }
  }

  lemma {:induction false} ReportLoaded(emails: seq<LoadedEmail>, e: LoadedEmail, report: Report)
    requires e in emails && e.mail.Readable? && report in ReportsIn(e.mail.attachments)
    ensures report in InputsOf(emails)
  {
    var n := |emails| - 1;
    if emails[n] != e {
      ReportLoaded(emails[..n], e, report);
    }
  }

  /** Exactly when: for given file names and data file, a second run changes nothing whatever the files
      contain if and only if no two of them are twins. */
  lemma SecondRunIff(rels: seq<string>, df: DataFile)
    ensures NoTwins(rels, df.index) <==>
            forall mails: seq<Mail> :: |mails| == |rels| ==>
              Rebuilt(Walk(rels, mails), Rebuilt(Walk(rels, mails), df)) == Rebuilt(Walk(rels, mails), df)
  {
    if NoTwins(rels, df.index) {
      forall mails: seq<Mail> | |mails| == |rels|
        ensures Rebuilt(Walk(rels, mails), Rebuilt(Walk(rels, mails), df)) == Rebuilt(Walk(rels, mails), df)
      {
        SecondRunChangesNothing(rels, mails, df);
      }
    } else {
      var f, g :| f in rels && g in rels && Twins(f, g, df.index);
      var mails := TwinsChangeSecondRun(rels, df, f, g);
    }
  }
}
