/** Messages of the mailbox and where the store keeps them. */
module Messages {
  import opened Types
  import opened Reports

  /** A message of the mailbox: its metadata, and the body Download returns for it. */
  datatype Msg = Msg(uid: uint32, date: Time, mail: Mail)

  function Path(epoch: uint32, m: Msg): EmailPath {
    EmailPath(epoch, m.date.year, m.date.month, m.uid)
  }

  function Meta(epoch: uint32, m: Msg): IndexEntry {
    IndexEntry(m.uid, epoch, m.date)
  }

  function Metas(epoch: uint32, inbox: seq<Msg>): seq<IndexEntry> {
    seq(|inbox|, i requires 0 <= i < |inbox| => Meta(epoch, inbox[i]))
  }

  /** SaveEmail for each message: a path that exists stays as it is. */
  function Saved(emls: EmailDir, epoch: uint32, inbox: seq<Msg>): EmailDir {
    if inbox == [] then emls
    else
      var init := Saved(emls, epoch, inbox[..|inbox| - 1]);
      var m := inbox[|inbox| - 1];
      if Path(epoch, m) in init then init else init[Path(epoch, m) := m.mail]
  }

  lemma SavedSnoc(emls: EmailDir, epoch: uint32, inbox: seq<Msg>, i: nat)
    requires i < |inbox|
    ensures var init := Saved(emls, epoch, inbox[..i]);
      Saved(emls, epoch, inbox[..i + 1]) ==
      if Path(epoch, inbox[i]) in init then init else init[Path(epoch, inbox[i]) := inbox[i].mail]
  {
    assert inbox[..i + 1][..i] == inbox[..i];
  }

  ghost predicate DistinctUids(inbox: seq<Msg>) {
    forall i, j :: 0 <= i < j < |inbox| ==> inbox[i].uid != inbox[j].uid
  }

  lemma {:induction false} SavedKeeps(emls: EmailDir, epoch: uint32, inbox: seq<Msg>, path: EmailPath)
    requires path in emls
    ensures path in Saved(emls, epoch, inbox) && Saved(emls, epoch, inbox)[path] == emls[path]
  {
    if inbox != [] {
      SavedKeeps(emls, epoch, inbox[..|inbox| - 1], path);
    }
  }

  /** Every message has its file: the one that was there, else its own body. */
  lemma {:induction false} SavedHolds(emls: EmailDir, epoch: uint32, inbox: seq<Msg>, i: nat)
    requires i < |inbox| && DistinctUids(inbox)
    ensures var path := Path(epoch, inbox[i]); var saved := Saved(emls, epoch, inbox);
      path in saved && saved[path] == if path in emls then emls[path] else inbox[i].mail
  {
    var n := |inbox| - 1;
    if i < n {
      SavedHolds(emls, epoch, inbox[..n], i);
    } else if Path(epoch, inbox[i]) in emls {
      SavedKeeps(emls, epoch, inbox[..n], Path(epoch, inbox[i]));
    } else if Path(epoch, inbox[i]) in Saved(emls, epoch, inbox[..n]) {
      SavedOnly(emls, epoch, inbox[..n], Path(epoch, inbox[i]));
    }
  }

  /** A saved path was there before or is the path of one of the messages. */
  lemma {:induction false} SavedOnly(emls: EmailDir, epoch: uint32, inbox: seq<Msg>, path: EmailPath)
    requires path in Saved(emls, epoch, inbox)
    ensures path in emls || exists i :: 0 <= i < |inbox| && Path(epoch, inbox[i]) == path
  {
    if inbox != [] {
      var n := |inbox| - 1;
      if path in Saved(emls, epoch, inbox[..n]) {
        SavedOnly(emls, epoch, inbox[..n], path);
        if path !in emls {
          var i :| 0 <= i < |inbox[..n]| && Path(epoch, inbox[..n][i]) == path;
          assert Path(epoch, inbox[i]) == path;
        }
      } else {
        assert Path(epoch, inbox[n]) == path;
      }
    }
  }

  lemma AllSaved(emls: EmailDir, epoch: uint32, inbox: seq<Msg>)
    requires DistinctUids(inbox)
    ensures forall i :: 0 <= i < |inbox| ==>
              var path := Path(epoch, inbox[i]);
              && path in Saved(emls, epoch, inbox)
              && Saved(emls, epoch, inbox)[path] == if path in emls then emls[path] else inbox[i].mail
  {
    forall i | 0 <= i < |inbox|
      ensures var path := Path(epoch, inbox[i]);
              && path in Saved(emls, epoch, inbox)
              && Saved(emls, epoch, inbox)[path] == if path in emls then emls[path] else inbox[i].mail
    {
      SavedHolds(emls, epoch, inbox, i);
    }
  }

  lemma {:induction false} NewFileIs(emls: EmailDir, epoch: uint32, inbox: seq<Msg>, p: EmailPath) returns (m: Msg)
    requires p in Saved(emls, epoch, inbox) && p !in emls
    ensures m in inbox && p == EmailPath(epoch, m.date.year, m.date.month, m.uid) && Saved(emls, epoch, inbox)[p] == m.mail
  {
    var n := |inbox| - 1;
    if p in Saved(emls, epoch, inbox[..n]) {
      m := NewFileIs(emls, epoch, inbox[..n], p);
    } else {
      m := inbox[n];
    }
  }

  /** Each message that was not indexed has an entry with its own date, and that entry leads to its file. */
  lemma EntriesLeadToFiles(index: seq<IndexEntry>, emls: EmailDir, epoch: uint32, inbox: seq<Msg>)
    requires DistinctUids(inbox)
    ensures forall m :: m in inbox && (forall e :: e in index ==> e.uid != m.uid || e.uidValidity != epoch) ==>
              var entry := IndexEntry(m.uid, epoch, m.date);
              && entry in AddMetas(index, Metas(epoch, inbox))
              && PathOf(entry) == EmailPath(epoch, m.date.year, m.date.month, m.uid)
              && PathOf(entry) in Saved(emls, epoch, inbox)
              && Saved(emls, epoch, inbox)[PathOf(entry)] == if PathOf(entry) in emls then emls[PathOf(entry)] else m.mail
  {
    forall m | m in inbox && (forall e :: e in index ==> e.uid != m.uid || e.uidValidity != epoch)
      ensures IndexEntry(m.uid, epoch, m.date) in AddMetas(index, Metas(epoch, inbox))
      ensures var path := EmailPath(epoch, m.date.year, m.date.month, m.uid);
        && path in Saved(emls, epoch, inbox)
        && Saved(emls, epoch, inbox)[path] == if path in emls then emls[path] else m.mail
    {
      var i :| 0 <= i < |inbox| && inbox[i] == m;
      SavedHolds(emls, epoch, inbox, i);
      NewMetaIsAdded(index, Metas(epoch, inbox), i);
    }
  }
}
