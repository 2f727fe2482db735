/** cmd/tlsrpt-digest/fetch.go steps 6 to 13, run as often as crashes and failed flushes demand. */
module FetchRun {
  import opened Types
  import opened Reports
  import opened Messages
  import opened Sequences

  /** A notification, and what it is about: a policy of an attachment, an attachment, or a whole message. */
  datatype Note =
    | FailureAlert(uid: uint32, attachment: nat, position: nat, report: Report, policy: Policy)
    | ParseWarning(uid: uint32, part: Option<nat>)

  /** fetchMsgState. */
  datatype MsgState = MsgState(msg: Msg, seen: bool, existedBefore: bool, raw: Option<Mail>)

  /** One alert per failing policy. */
  function AlertsOf(uid: uint32, attachment: nat, report: Report, policies: seq<Policy>): seq<Note> {
    if policies == [] then []
    else
      var n := |policies| - 1;
      AlertsOf(uid, attachment, report, policies[..n]) +
      if policies[n].failures > 0 then [FailureAlert(uid, attachment, n, report, policies[n])] else []
  }

  /** Alerts go out for unseen messages only, parse warnings for every message that is processed. */
  function NotesIn(uid: uint32, seen: bool, atts: seq<Attachment>): seq<Note> {
    if atts == [] then []
    else
      var n := |atts| - 1;
      NotesIn(uid, seen, atts[..n]) + NotesAt(uid, n, seen, atts[n])
  }

  function NotesAt(uid: uint32, n: nat, seen: bool, att: Attachment): seq<Note> {
    match att
    case NotTlsrpt => []
    case Malformed => [ParseWarning(uid, Some(n))]
    case Tlsrpt(report) => if !seen && report.HasFailure() then AlertsOf(uid, n, report, report.policies) else []
  }

  function NotesOf(uid: uint32, seen: bool, mail: Mail): seq<Note> {
    if !mail.Readable? then [ParseWarning(uid, None)] else NotesIn(uid, seen, mail.attachments)
  }

  /** What is to be notified about a message: that it cannot be read, that an attachment is malformed, and, when the
      message was unseen, each failing policy of each report. */
  predicate NoteDue(note: Note, uid: uint32, seen: bool, mail: Mail) {
    note.uid == uid &&
    match note
    case ParseWarning(_, None) => !mail.Readable?
    case ParseWarning(_, Some(n)) => mail.Readable? && n < |mail.attachments| && mail.attachments[n].Malformed?
    case FailureAlert(_, n, k, r, p) =>
      && !seen && mail.Readable? && n < |mail.attachments| && mail.attachments[n] == Tlsrpt(r)
      && k < |r.policies| && r.policies[k] == p && p.failures > 0
  }

  lemma NotesAreDue(uid: uint32, seen: bool, mail: Mail, note: Note)
    ensures note in NotesOf(uid, seen, mail) <==> NoteDue(note, uid, seen, mail)
  {
    if mail.Readable? {
      NotesInAreDue(uid, seen, mail.attachments, note);
    }
  }

  /** The notes of one message, attachment by attachment. */
  lemma AttachmentNotes(uid: uint32, seen: bool, atts: seq<Attachment>)
    ensures forall n :: 0 <= n < |atts| && atts[n].Malformed? ==> ParseWarning(uid, Some(n)) in NotesIn(uid, seen, atts)
    ensures forall n :: 0 <= n < |atts| && atts[n].Tlsrpt? && !seen ==>
              forall k :: 0 <= k < |atts[n].report.policies| && atts[n].report.policies[k].failures > 0 ==>
                FailureAlert(uid, n, k, atts[n].report, atts[n].report.policies[k]) in NotesIn(uid, seen, atts)
    ensures forall note :: note in NotesIn(uid, seen, atts) ==> NoteDue(note, uid, seen, Readable(atts))
  {
    forall note ensures note in NotesIn(uid, seen, atts) <==> NoteDue(note, uid, seen, Readable(atts)) {
      NotesInAreDue(uid, seen, atts, note);
    }
  }

  lemma {:induction false} NotesInAreDue(uid: uint32, seen: bool, atts: seq<Attachment>, note: Note)
    ensures note in NotesIn(uid, seen, atts) <==> NoteDue(note, uid, seen, Readable(atts))
  {
    if atts != [] {
      var n := |atts| - 1;
      NotesInAreDue(uid, seen, atts[..n], note);
      NotesAtAreDue(uid, n, seen, atts[n], note);
      InAppend(NotesIn(uid, seen, atts[..n]), NotesAt(uid, n, seen, atts[n]));
      DueSplits(note, uid, seen, atts);
    }
  }

  lemma DueSplits(note: Note, uid: uint32, seen: bool, atts: seq<Attachment>)
    requires atts != []
    ensures var n := |atts| - 1;
      NoteDue(note, uid, seen, Readable(atts)) <==>
      if AttachmentOf(note) == n then
        note.uid == uid &&
        match note
        case ParseWarning(_, _) => atts[n].Malformed?
        case FailureAlert(_, _, k, r, p) => !seen && atts[n] == Tlsrpt(r) && k < |r.policies| && r.policies[k] == p && p.failures > 0
      else NoteDue(note, uid, seen, Readable(atts[..n]))
  {
  }

  lemma NotesAtAreDue(uid: uint32, n: nat, seen: bool, att: Attachment, note: Note)
    ensures note in NotesAt(uid, n, seen, att) <==>
            note.uid == uid && AttachmentOf(note) == n &&
            match note
            case ParseWarning(_, _) => att.Malformed?
            case FailureAlert(_, _, k, r, p) => !seen && att == Tlsrpt(r) && k < |r.policies| && r.policies[k] == p && p.failures > 0
  {
    if att.Tlsrpt? {
      AlertsAreDue(uid, n, att.report, att.report.policies, note);
    }
  }

  lemma {:induction false} AlertsAreDue(uid: uint32, n: nat, r: Report, policies: seq<Policy>, note: Note)
    ensures note in AlertsOf(uid, n, r, policies) <==>
            && note.FailureAlert? && note.uid == uid && note.attachment == n && note.report == r
            && note.position < |policies| && policies[note.position] == note.policy && note.policy.failures > 0
  {
    if policies != [] {
      AlertsAreDue(uid, n, r, policies[..|policies| - 1], note);
    }
  }

  /** A message that is SEEN and was stored before the run has been processed already. */
  predicate Skipped(s: MsgState) {
    s.seen && s.existedBefore
  }

  /** The reports of a message, from its stored mail, unless it is skipped. */
  function InputsFrom(s: MsgState, emls: EmailDir, epoch: uint32): seq<Report> {
    if Skipped(s) || Path(epoch, s.msg) !in emls then [] else ReportsOf(emls[Path(epoch, s.msg)])
  }

  function InputsOf(states: seq<MsgState>, emls: EmailDir, epoch: uint32): seq<Report> {
    if states == [] then [] else InputsOf(states[..|states| - 1], emls, epoch) + InputsFrom(states[|states| - 1], emls, epoch)
  }

  lemma CollectedSnoc(states: seq<MsgState>, i: nat, emls: EmailDir, epoch: uint32)
    requires i < |states| && Path(epoch, states[i].msg) in emls
    ensures var s, mail := states[i], emls[Path(epoch, states[i].msg)];
      && InputsOf(states[..i + 1], emls, epoch) == InputsOf(states[..i], emls, epoch) + (if Skipped(s) then [] else ReportsOf(mail))
      && NotesFor(states[..i + 1], emls, epoch) == NotesFor(states[..i], emls, epoch)
                                                   + if Skipped(s) then [] else NotesOf(s.msg.uid, s.seen, mail)
  {
    assert states[..i + 1][..i] == states[..i];
  }

  lemma Regroup(a: seq<Note>, b: seq<Note>, c: seq<Note>)
    ensures a + b + c == a + (b + c)
  {
  }

  function NotesFrom(s: MsgState, emls: EmailDir, epoch: uint32): seq<Note> {
    if Skipped(s) || Path(epoch, s.msg) !in emls then [] else NotesOf(s.msg.uid, s.seen, emls[Path(epoch, s.msg)])
  }

  function NotesFor(states: seq<MsgState>, emls: EmailDir, epoch: uint32): seq<Note> {
    if states == [] then [] else NotesFor(states[..|states| - 1], emls, epoch) + NotesFrom(states[|states| - 1], emls, epoch)
  }

  /** No two notes about a message are the same, so the set of delivered notes loses none of them. */
  lemma NotesAreDistinct(uid: uint32, seen: bool, mail: Mail)
    ensures Distinct(NotesOf(uid, seen, mail))
  {
    if mail.Readable? {
      AttachmentsDiffer(uid, seen, mail.attachments);
    }
  }

  function AttachmentOf(note: Note): int {
    if note.FailureAlert? then note.attachment else if note.part.Some? then note.part.value else -1
  }

  lemma {:induction false} AttachmentsDiffer(uid: uint32, seen: bool, atts: seq<Attachment>)
    ensures forall note :: note in NotesIn(uid, seen, atts) ==> AttachmentOf(note) < |atts|
    ensures Distinct(NotesIn(uid, seen, atts))
  {
    if atts != [] {
      var n := |atts| - 1;
      AttachmentsDiffer(uid, seen, atts[..n]);
      var init, mine := NotesIn(uid, seen, atts[..n]), NotesAt(uid, n, seen, atts[n]);
      if atts[n].Tlsrpt? {
        PoliciesDiffer(uid, n, atts[n].report, atts[n].report.policies);
      }
      assert forall note :: note in mine ==> AttachmentOf(note) == n;
      InAppend(init, mine);
      DistinctAppend(init, mine);
    }
  }

  lemma {:induction false} PoliciesDiffer(uid: uint32, attachment: nat, report: Report, policies: seq<Policy>)
    ensures forall note :: note in AlertsOf(uid, attachment, report, policies) ==>
              note.FailureAlert? && note.attachment == attachment && note.position < |policies|
    ensures Distinct(AlertsOf(uid, attachment, report, policies))
  {
    if policies != [] {
      var n := |policies| - 1;
      PoliciesDiffer(uid, attachment, report, policies[..n]);
      var init := AlertsOf(uid, attachment, report, policies[..n]);
      var mine := if policies[n].failures > 0 then [FailureAlert(uid, attachment, n, report, policies[n])] else [];
      InAppend(init, mine);
      DistinctAppend(init, mine);
    }
  }

  /** The store holds a message and has it indexed, every report of it has been saved, and every note about
      it has been delivered. */
  ghost predicate Acknowledged(uid: uint32, date: Time, epoch: uint32, emls: EmailDir, index: seq<IndexEntry>,
                               saved: seq<Report>, delivered: set<Note>) {
    var path := EmailPath(epoch, date.year, date.month, uid);
    && path in emls
    && Indexed(index, EmailKey(uid, epoch))
    && (forall r :: r in ReportsOf(emls[path]) ==> r in saved)
    && (forall n :: n in NotesOf(uid, false, emls[path]) ==> n in delivered)
  }

  class Tool {
    const epoch: uint32
    /** The server applies UID STORE to all messages or none; otherwise a crash may split it. */
    const atomicFlags: bool
    var steady: bool
    /** The server has granted a read-only selection, where \Seen cannot be set. That is no error. */
    var readOnly: bool

    var emls: EmailDir
    var index: seq<IndexEntry>
    var reports: seq<Report>
    /** The \Seen flags on the server. */
    var seen: set<uint32>
    /** The notifier's buffer: lost in a crash, dropped by a failed flush. */
    var buf: seq<Note>
    /** What has arrived at the webhook. */
    var delivered: set<Note>
    /** The flags that were there before this tool. */
    ghost const foreign: set<uint32>
    /** The reports that were there before this tool, and all it has saved since, in order. */
    ghost const base: seq<Report>
    ghost var saved: seq<Report>
    /** The messages this tool has marked, with their dates. */
    ghost var marked: map<uint32, Time>

    constructor (epoch: uint32, atomicFlags: bool, emls: EmailDir, index: seq<IndexEntry>, reports: seq<Report>, seen: set<uint32>)
      ensures this.epoch == epoch && this.atomicFlags == atomicFlags
      ensures this.emls == emls && this.index == index && this.reports == base == reports && this.seen == foreign == seen
      ensures AtLeastOnce()
    {
      this.epoch, this.atomicFlags, this.steady, this.readOnly := epoch, atomicFlags, false, false;
      this.emls, this.index, this.reports, this.seen := emls, index, reports, seen;
      buf, delivered, marked, foreign, base, saved := [], {}, map[], seen, reports, [];
    }

    /** Every \Seen flag this tool has added is on an acknowledged message, and the stored reports are the last
        versions of what has been saved. */
    ghost predicate AtLeastOnce()
      reads `seen, `marked, `emls, `index, `reports, `saved, `delivered
    {
      && reports == Upsert(base, saved)
      && (forall uid :: uid in seen ==> uid in foreign || uid in marked)
      && (forall uid :: uid in marked ==> Acknowledged(uid, marked[uid], epoch, emls, index, saved, delivered))
    }

    method BuildFetchStates(inbox: seq<Msg>) returns (states: seq<MsgState>)
      ensures |states| == |inbox|
      ensures forall i :: 0 <= i < |inbox| ==>
                states[i] == MsgState(inbox[i], inbox[i].uid in seen, Path(epoch, inbox[i]) in emls, None)
    {
      states := [];
      for i := 0 to |inbox|
        invariant |states| == i
        invariant forall k :: 0 <= k < i ==>
                    states[k] == MsgState(inbox[k], inbox[k].uid in seen, Path(epoch, inbox[k]) in emls, None)
      {
        states := states + [MsgState(inbox[i], inbox[i].uid in seen, Path(epoch, inbox[i]) in emls, None)];
      }
    }

    /** Downloads what has no local .eml, saves it, and keeps the raw mail. */
    method FetchDownloadAndSave(inbox: seq<Msg>, states0: seq<MsgState>) returns (alive: bool, states: seq<MsgState>)
      requires |states0| == |inbox| && DistinctUids(inbox)
      requires forall i :: 0 <= i < |inbox| ==>
                 states0[i] == MsgState(inbox[i], inbox[i].uid in seen, Path(epoch, inbox[i]) in emls, None)
      modifies `emls
      ensures steady ==> alive
      ensures SavedPrefix(old(emls), epoch, inbox, emls)
      ensures alive ==> emls == Saved(old(emls), epoch, inbox)
      ensures alive ==> |states| == |inbox| && forall i :: 0 <= i < |inbox| ==>
                states[i] == states0[i].(raw := if states0[i].existedBefore then None else Some(inbox[i].mail))
    {
      states := states0;
      for i := 0 to |inbox|
        invariant |states| == |inbox|
        invariant emls == Saved(old(emls), epoch, inbox[..i])
        invariant forall k :: 0 <= k < i ==>
                    states[k] == states0[k].(raw := if states0[k].existedBefore then None else Some(inbox[k].mail))
        invariant forall k :: i <= k < |inbox| ==> states[k] == states0[k]
      {
        assert inbox[..i + 1][..i] == inbox[..i];
        if states[i].existedBefore {
          SavedKeeps(old(emls), epoch, inbox[..i], Path(epoch, inbox[i]));
        }
        if !states[i].existedBefore {
          alive := MayDie(steady);
          if !alive {
            return;
          }
          if Path(epoch, inbox[i]) !in emls {
            emls := emls[Path(epoch, inbox[i]) := inbox[i].mail];
          }
          states := states[i := states[i].(raw := Some(inbox[i].mail))];
        }
      }
      assert inbox[..|inbox|] == inbox;
      alive := true;
    }

    method LogAlerts(uid: uint32, attachment: nat, report: Report)
      modifies `buf
      ensures buf == old(buf) + AlertsOf(uid, attachment, report, report.policies)
    {
      for i := 0 to |report.policies|
        invariant buf == old(buf) + AlertsOf(uid, attachment, report, report.policies[..i])
      {
        assert report.policies[..i + 1][..i] == report.policies[..i];
        if report.policies[i].failures > 0 {
          buf := buf + [FailureAlert(uid, attachment, i, report, report.policies[i])];
        }
      }
      assert report.policies[..|report.policies|] == report.policies;
    }

    method ProcessAttachments(atts: seq<Attachment>, uid: uint32, isSeen: bool) returns (found: seq<Report>)
      modifies `buf
      ensures found == ReportsIn(atts)
      ensures buf == old(buf) + NotesIn(uid, isSeen, atts)
      // every report, a warning for every malformed attachment, an alert for every failing policy of an unseen message
      ensures forall r :: r in found <==> exists n :: 0 <= n < |atts| && atts[n] == Tlsrpt(r)
      ensures forall n :: 0 <= n < |atts| && atts[n].Malformed? ==> ParseWarning(uid, Some(n)) in buf[|old(buf)|..]
      ensures forall n :: 0 <= n < |atts| && atts[n].Tlsrpt? && !isSeen ==>
                forall k :: 0 <= k < |atts[n].report.policies| && atts[n].report.policies[k].failures > 0 ==>
                  FailureAlert(uid, n, k, atts[n].report, atts[n].report.policies[k]) in buf[|old(buf)|..]
      // and nothing else
      ensures forall note :: note in buf[|old(buf)|..] ==>
                && note.uid == uid
                && (note.ParseWarning? ==> note.part.Some? && note.part.value < |atts| && atts[note.part.value].Malformed?)
                && (note.FailureAlert? ==>
                      && !isSeen && note.attachment < |atts| && atts[note.attachment] == Tlsrpt(note.report)
                      && note.position < |note.report.policies| && note.report.policies[note.position] == note.policy
                      && note.policy.failures > 0)
    {
      found := WalkAttachments(atts, uid, isSeen);
      ghost var notes := NotesIn(uid, isSeen, atts);
      assert buf[|old(buf)|..] == notes;
      AttachmentNotes(uid, isSeen, atts);
      forall r ensures r in found <==> exists n :: 0 <= n < |atts| && atts[n] == Tlsrpt(r) {
        ReportsInAre(atts, r);
      }
    }

    /** The loop. */
    method WalkAttachments(atts: seq<Attachment>, uid: uint32, isSeen: bool) returns (found: seq<Report>)
      modifies `buf
      ensures found == ReportsIn(atts)
      ensures buf == old(buf) + NotesIn(uid, isSeen, atts)
    {
      found := [];
      for i := 0 to |atts|
        invariant found == ReportsIn(atts[..i])
        invariant buf == old(buf) + NotesIn(uid, isSeen, atts[..i])
      {
        assert atts[..i + 1][..i] == atts[..i];
        match atts[i] {
          case NotTlsrpt =>
          case Malformed =>
            buf := buf + [ParseWarning(uid, Some(i))];
          case Tlsrpt(report) =>
            if !isSeen && report.HasFailure() {
              LogAlerts(uid, i, report);
            }
            found := found + [report];
        }
      }
      assert atts[..|atts|] == atts;
    }

    /** Parses one message, from memory or from its stored file. */
    method CollectOne(s: MsgState) returns (found: seq<Report>)
      requires Path(epoch, s.msg) in emls
      requires s.raw.None? <==> s.existedBefore
      requires s.raw.Some? ==> s.raw.value == emls[Path(epoch, s.msg)]
      modifies `buf
      ensures found == if Skipped(s) then [] else ReportsOf(emls[Path(epoch, s.msg)])
      ensures buf == old(buf) + if Skipped(s) then [] else NotesOf(s.msg.uid, s.seen, emls[Path(epoch, s.msg)])
    {
      if s.seen && s.existedBefore {
        return [];
      }
      var raw := if s.raw.None? then emls[Path(epoch, s.msg)] else s.raw.value;
      match raw {
        case NotAMessage | BadMime =>
          buf := buf + [ParseWarning(s.msg.uid, None)];
          found := [];
        case Readable(atts) =>
          found := ProcessAttachments(atts, s.msg.uid, s.seen);
      }
    }

    /** Collects the reports of every message that is not already processed, and buffers the notes. */
    method FetchCollectReports(states: seq<MsgState>) returns (inputs: seq<Report>)
      requires Loadable(states)
      modifies `buf
      ensures inputs == InputsOf(states, emls, epoch)
      ensures buf == old(buf) + NotesFor(states, emls, epoch)
      // of each message that was not both SEEN and stored before: its reports, and what is due about it
      ensures forall r :: r in inputs <==> exists s :: s in states && GivesReport(s, emls, epoch, r)
      ensures forall note :: note in NotesFor(states, emls, epoch) <==> exists s :: s in states && GivesNote(s, emls, epoch, note)
    {
      inputs := CollectAll(states);
      CollectedMeans(states, emls, epoch);
    }

    /** The loop. */
    method CollectAll(states: seq<MsgState>) returns (inputs: seq<Report>)
      requires Loadable(states)
      modifies `buf
      ensures inputs == InputsOf(states, emls, epoch)
      ensures buf == old(buf) + NotesFor(states, emls, epoch)
    {
      inputs := [];
      for i := 0 to |states|
        invariant inputs == InputsOf(states[..i], emls, epoch)
        invariant buf == old(buf) + NotesFor(states[..i], emls, epoch)
      {
        CollectedSnoc(states, i, emls, epoch);
        label before:
        var found := CollectOne(states[i]);
        inputs := inputs + found;
        Regroup(old(buf), NotesFor(states[..i], emls, epoch), buf[|old@before(buf)|..]);
      }
      assert states[..|states|] == states;
    }

    /** Flush takes the buffer whatever happens; a success has delivered all of it, a failure some of it. */
    method Flush() returns (ok: bool)
      requires AtLeastOnce()
      modifies `buf, `delivered
      ensures AtLeastOnce()
      ensures buf == []
      ensures old(delivered) <= delivered <= old(delivered) + Elements(old(buf))
      ensures ok ==> delivered == old(delivered) + Elements(old(buf))
      ensures steady ==> ok
    {
      var snapshot := buf;
      buf := [];
      ok := MayDie(steady);
      if ok {
        delivered := delivered + Elements(snapshot);
      } else {
        var sent: set<Note> := *;
        delivered := delivered + Elements(snapshot) * sent;
      }
      StillAcknowledged();
    }

    /** What a \Seen flag of this tool means for the message that is stored: each report of it has been saved and its ID is
        in the store, and what there was to say about it has arrived. */
    lemma MarkedIsReported(uid: uint32)
      requires AtLeastOnce() && uid in marked
      ensures var path := EmailPath(epoch, marked[uid].year, marked[uid].month, uid);
        && path in emls
        && (exists e :: e in index && e.uid == uid && e.uidValidity == epoch)
        && (!emls[path].Readable? ==> ParseWarning(uid, None) in delivered)
        && (emls[path].Readable? ==>
              var atts := emls[path].attachments;
              forall n :: 0 <= n < |atts| ==>
                && (atts[n].Malformed? ==> ParseWarning(uid, Some(n)) in delivered)
                && (atts[n].Tlsrpt? ==>
                      var r := atts[n].report;
                      && r in saved && (exists s :: s in reports && s.id == r.id)
                      && forall k :: 0 <= k < |r.policies| && r.policies[k].failures > 0 ==>
                           FailureAlert(uid, n, k, r, r.policies[k]) in delivered))
    {
      var mail := emls[EmailPath(epoch, marked[uid].year, marked[uid].month, uid)];
      forall note | NoteDue(note, uid, false, mail) ensures note in delivered {
        NotesAreDue(uid, false, mail, note);
      }
      if mail.Readable? {
        forall n | 0 <= n < |mail.attachments| && mail.attachments[n].Tlsrpt?
          ensures mail.attachments[n].report in saved
          ensures exists s :: s in reports && s.id == mail.attachments[n].report.id
        {
          ReportsInAre(mail.attachments, mail.attachments[n].report);
          SavedIsStored(base, saved, mail.attachments[n].report);
        }
      }
    }

    /** Every message that was unseen at the start of the run may be marked. */
    ghost predicate MayMark(states: seq<MsgState>)
      reads this
    {
      forall i :: 0 <= i < |states| && !states[i].seen ==>
        Acknowledged(states[i].msg.uid, states[i].msg.date, epoch, emls, index, saved, delivered)
    }

    static function UnseenOf(states: seq<MsgState>): set<uint32> {
      set s | s in states && !s.seen :: s.msg.uid
    }

    /** Sets \Seen on the messages that were unseen at the start of the run. */
    method FetchMarkSeen(states: seq<MsgState>) returns (alive: bool)
      requires AtLeastOnce() && MayMark(states)
      modifies `seen, `marked
      ensures AtLeastOnce()
      ensures steady ==> alive
      ensures old(seen) <= seen <= old(seen) + UnseenOf(states)
      ensures alive ==> seen == if readOnly then old(seen) else old(seen) + UnseenOf(states)
      ensures atomicFlags ==> seen == old(seen) || seen == old(seen) + UnseenOf(states)
    {
      var unseen := UnseenOf(states);
      if unseen == {} || readOnly {
        return true;
      }
      if atomicFlags {
        alive := MayDie(steady);
        if alive {
          Mark(states, unseen - seen);
        }
      } else {
        alive := MarkOneByOne(states, unseen - seen);
      }
    }

    /** UID STORE on a server that flags one message at a time, in an order of its own. */
    method MarkOneByOne(states: seq<MsgState>, uids: set<uint32>) returns (alive: bool)
      requires AtLeastOnce() && MayMark(states) && uids <= UnseenOf(states)
      modifies `seen, `marked
      ensures AtLeastOnce()
      ensures steady ==> alive
      ensures old(seen) <= seen <= old(seen) + uids
      ensures alive ==> seen == old(seen) + uids
      decreases uids
    {
      alive := true;
      if uids != {} {
        alive := MayDie(steady);
        if alive {
          var uid :| uid in uids;
          Mark(states, {uid});
          alive := MarkOneByOne(states, uids - {uid});
        }
      }
    }

    method Mark(states: seq<MsgState>, uids: set<uint32>)
      requires AtLeastOnce() && MayMark(states) && uids <= UnseenOf(states)
      modifies `seen, `marked
      ensures AtLeastOnce() && MayMark(states)
      ensures seen == old(seen) + uids
    {
      seen := seen + uids;
      marked := map uid | uid in marked.Keys + uids ::
        if uid in uids then DateOf(states, uid) else marked[uid];
    }

    static ghost function DateOf(states: seq<MsgState>, uid: uint32): (date: Time)
      requires uid in UnseenOf(states)
      ensures exists i :: 0 <= i < |states| && !states[i].seen && states[i].msg.uid == uid && states[i].msg.date == date
    {
      var s :| s in states && !s.seen && s.msg.uid == uid;
      s.msg.date
    }

    /** Growth of the store and of what was delivered keeps every acknowledgement. */
    twostate lemma StillAcknowledged()
      requires old(AtLeastOnce()) && marked == old(marked) && seen == old(seen)
      requires forall p :: p in old(emls) ==> p in emls && emls[p] == old(emls)[p]
      requires Keys(old(index)) <= Keys(index)
      requires reports == Upsert(base, saved) && forall r :: r in old(saved) ==> r in saved
      requires old(delivered) <= delivered
      ensures AtLeastOnce()
    {
      forall uid | uid in marked
        ensures Acknowledged(uid, marked[uid], epoch, emls, index, saved, delivered)
      {
        assert EmailKey(uid, epoch) in Keys(old(index));
      }
    }

    /** What FetchCollectReports needs of the states: the raw mail in memory is what the store holds. */
    ghost predicate Loadable(states: seq<MsgState>)
      reads this
    {
      forall i :: 0 <= i < |states| ==>
        && Path(epoch, states[i].msg) in emls
        && (states[i].raw.None? <==> states[i].existedBefore)
        && (states[i].raw.Some? ==> states[i].raw.value == emls[Path(epoch, states[i].msg)])
    }

    /** Step 11. */
    method PersistReports(inputs: seq<Report>)
      requires AtLeastOnce()
      modifies `reports, `saved
      ensures AtLeastOnce()
      ensures reports == Upsert(old(reports), inputs) && saved == old(saved) + inputs
    {
      reports := SaveReports(reports, inputs);
      UpsertAppend(base, saved, inputs);
      saved := saved + inputs;
      StillAcknowledged();
    }

    /** Steps 6 to 8: .eml files first, then the index. */
    method StoreEmails(inbox: seq<Msg>) returns (alive: bool, states: seq<MsgState>)
      requires AtLeastOnce() && DistinctUids(inbox)
      requires forall i :: 0 <= i < |inbox| ==> !inbox[i].date.IsZero()
      modifies `emls, `index
      ensures AtLeastOnce()
      ensures steady ==> alive
      ensures SavedPrefix(old(emls), epoch, inbox, emls)
      ensures index == old(index) || (index == AddMetas(old(index), Metas(epoch, inbox)) && emls == Saved(old(emls), epoch, inbox))
      ensures alive ==> index == AddMetas(old(index), Metas(epoch, inbox)) && emls == Saved(old(emls), epoch, inbox)
      ensures alive ==> Describes(states, inbox, seen, old(emls), epoch) && Loadable(states)
    {
      states := BuildFetchStates(inbox);
      alive, states := FetchDownloadAndSave(inbox, states);
      SavedExtends(old(emls), epoch, inbox, emls);
      StillAcknowledged();
      if !alive {
        return;
      }
      AllSaved(old(emls), epoch, inbox);
      alive := MayDie(steady);
      if !alive {
        return;
      }
      var saved := SaveEmailMetas(index, Metas(epoch, inbox));
      AddMetasFirstWins(index, Metas(epoch, inbox));
      index := saved.index;
      StillAcknowledged();
    }

    /** Steps 12 and 13. */
    method FlushAndMark(inbox: seq<Msg>, states: seq<MsgState>) returns (code: Exit)
      requires AtLeastOnce()
      requires |states| == |inbox| && forall i :: 0 <= i < |inbox| ==> states[i].msg == inbox[i] && Path(epoch, inbox[i]) in emls
      requires Keys(Metas(epoch, inbox)) <= Keys(index)
      requires forall r :: r in InputsOf(states, emls, epoch) ==> r in saved
      requires buf == NotesFor(states, emls, epoch)
      modifies `seen, `buf, `delivered, `marked
      ensures AtLeastOnce()
      ensures old(seen) <= seen <= old(seen) + UnseenOf(states)
      ensures atomicFlags ==> seen == old(seen) || seen == old(seen) + UnseenOf(states)
      ensures code == ExitOk ==> seen == if readOnly then old(seen) else old(seen) + UnseenOf(states)
      ensures old(delivered) <= delivered <= old(delivered) + Elements(NotesFor(states, emls, epoch))
      ensures code == ExitOk ==> delivered == old(delivered) + Elements(NotesFor(states, emls, epoch))
      ensures steady ==> code == ExitOk
    {
      var flushed := Flush();
      if !flushed {
        return ExitError;
      }
      JustAcknowledged(states, inbox, epoch, emls, index, saved, delivered);
      var alive := FetchMarkSeen(states);
      return if alive then ExitOk else Killed;
    }

    /** Steps 9 to 13: reports, then the flush, then \Seen. */
    method ReportAndMark(inbox: seq<Msg>, states: seq<MsgState>) returns (code: Exit)
      requires AtLeastOnce() && Loadable(states)
      requires |states| == |inbox| && forall i :: 0 <= i < |inbox| ==> states[i].msg == inbox[i]
      requires Keys(Metas(epoch, inbox)) <= Keys(index)
      modifies `reports, `saved, `seen, `buf, `delivered, `marked
      ensures AtLeastOnce()
      ensures reports == old(reports) || reports == Upsert(old(reports), InputsOf(states, emls, epoch))
      ensures seen != old(seen) || code == ExitOk ==> reports == Upsert(old(reports), InputsOf(states, emls, epoch))
      ensures old(seen) <= seen <= old(seen) + UnseenOf(states)
      ensures atomicFlags ==> seen == old(seen) || seen == old(seen) + UnseenOf(states)
      ensures code == ExitOk ==> seen == if readOnly then old(seen) else old(seen) + UnseenOf(states)
      ensures saved == old(saved) || saved == old(saved) + InputsOf(states, emls, epoch)
      ensures old(delivered) <= delivered <= old(delivered) + Elements(NotesFor(states, emls, epoch))
      ensures code == ExitOk ==> saved == old(saved) + InputsOf(states, emls, epoch)
                                 && delivered == old(delivered) + Elements(NotesFor(states, emls, epoch))
      ensures steady ==> code == ExitOk
    {
      var alive := CollectAndSave(states);
      if !alive {
        return Killed;
      }
      code := FlushAndMark(inbox, states);
    }

    /** Steps 9 to 11. */
    method CollectAndSave(states: seq<MsgState>) returns (alive: bool)
      requires AtLeastOnce() && Loadable(states)
      modifies `reports, `saved, `buf
      ensures AtLeastOnce()
      ensures steady ==> alive
      ensures !alive ==> reports == old(reports) && saved == old(saved)
      ensures alive ==>
                && reports == Upsert(old(reports), InputsOf(states, emls, epoch))
                && saved == old(saved) + InputsOf(states, emls, epoch)
                && buf == NotesFor(states, emls, epoch)
    {
      var inputs := CollectAfresh(states);
      alive := MayDie(steady);
      if alive {
        PersistReports(inputs);
      }
    }

    /** A run starts with an empty buffer. */
    method CollectAfresh(states: seq<MsgState>) returns (inputs: seq<Report>)
      requires Loadable(states)
      modifies `buf
      ensures inputs == InputsOf(states, emls, epoch) && buf == NotesFor(states, emls, epoch)
    {
      buf := [];
      inputs := FetchCollectReports(states);
      assert [] + NotesFor(states, emls, epoch) == NotesFor(states, emls, epoch);
    }

    /** Steps 6 to 13. */
    method Fetch(inbox: seq<Msg>) returns (code: Exit)
      requires AtLeastOnce() && DistinctUids(inbox)
      requires forall i :: 0 <= i < |inbox| ==> !inbox[i].date.IsZero()
      modifies `emls, `index, `reports, `saved, `seen, `buf, `delivered, `marked
      // \Seen only after storage, index, reports and delivery, however this run ends
      ensures AtLeastOnce()
      // how far the store got
      ensures FetchEffect(inbox, epoch, atomicFlags, code == ExitOk,
                          old(emls), old(index), old(reports), old(seen), emls, index, reports, seen)
      ensures code == ExitOk ==> seen == if readOnly then old(seen) else old(seen) + Uids(inbox)
      ensures code == ExitOk && !readOnly ==> forall m :: m in inbox ==> m.uid in seen
      ensures forall uid :: uid in seen ==> uid in old(seen) || exists m :: m in inbox && m.uid == uid
      // however it ends, no stored file changes, and a new one is that of a message
      ensures forall p :: p in old(emls) ==> p in emls && emls[p] == old(emls)[p]
      ensures forall p :: p in emls && p !in old(emls) ==>
                exists m :: m in inbox && p == EmailPath(epoch, m.date.year, m.date.month, m.uid) && emls[p] == m.mail
      // finished: whatever was not both SEEN and stored before has its reports saved and its notes delivered
      ensures code == ExitOk ==>
                forall m :: m in inbox && !(m.uid in old(seen) && Path(epoch, m) in old(emls)) ==>
                  && Path(epoch, m) in emls
                  && (forall r :: Carries(emls[Path(epoch, m)], r) ==> r in saved)
                  && (forall note :: NoteDue(note, m.uid, m.uid in old(seen), emls[Path(epoch, m)]) ==> note in delivered)
      // however it ends, nothing else is saved or delivered
      ensures old(saved) <= saved && forall r :: r in saved[|old(saved)|..] ==>
                exists m :: m in inbox && !(m.uid in old(seen) && Path(epoch, m) in old(emls))
                            && Path(epoch, m) in emls && Carries(emls[Path(epoch, m)], r)
      ensures old(delivered) <= delivered && forall note :: note in delivered - old(delivered) ==>
                exists m :: m in inbox && !(m.uid in old(seen) && Path(epoch, m) in old(emls))
                            && Path(epoch, m) in emls && NoteDue(note, m.uid, m.uid in old(seen), emls[Path(epoch, m)])
      // each new message is indexed under its own date, where its file is
      ensures code == ExitOk ==>
                forall m :: m in inbox && (forall e :: e in old(index) ==> e.uid != m.uid || e.uidValidity != epoch) ==>
                  && IndexEntry(m.uid, epoch, m.date) in index
                  && var path := EmailPath(epoch, m.date.year, m.date.month, m.uid);
                     && PathOf(IndexEntry(m.uid, epoch, m.date)) == path
                     && path in emls && emls[path] == if path in old(emls) then old(emls)[path] else m.mail
      ensures steady ==> code == ExitOk
    {
      ghost var states;
      code, states := FetchSteps(inbox);
      FetchMeans(inbox, epoch, code == ExitOk, states, old(emls), old(index), old(reports), old(seen), old(saved), old(delivered),
                 emls, index, reports, seen, saved, delivered);
    }

    method FetchSteps(inbox: seq<Msg>) returns (code: Exit, ghost states: seq<MsgState>)
      requires AtLeastOnce() && DistinctUids(inbox)
      requires forall i :: 0 <= i < |inbox| ==> !inbox[i].date.IsZero()
      modifies `emls, `index, `reports, `saved, `seen, `buf, `delivered, `marked
      ensures AtLeastOnce()
      ensures FetchEffect(inbox, epoch, atomicFlags, code == ExitOk,
                          old(emls), old(index), old(reports), old(seen), emls, index, reports, seen)
      ensures code == ExitOk ==> seen == if readOnly then old(seen) else old(seen) + Uids(inbox)
      ensures SaidAndSaved(inbox, epoch, code == ExitOk, states, old(emls), old(seen), old(saved), old(delivered), emls, saved, delivered)
      ensures steady ==> code == ExitOk
    {
      var alive, known := StoreEmails(inbox);
      states := known;
      if !alive {
        return Killed, states;
      }
      AddMetasFirstWins(old(index), Metas(epoch, inbox));
      InputsAreResent(states, inbox, old(seen), old(emls), emls, epoch);
      UnseenUids(states, inbox, old(seen), old(emls), epoch);
      code := ReportAndMark(inbox, known);
    }
  }

  /** What a run has saved and delivered, in terms of its states. */
  ghost predicate SaidAndSaved(inbox: seq<Msg>, epoch: uint32, finished: bool, states: seq<MsgState>,
                               emls0: EmailDir, seen0: set<uint32>, saved0: seq<Report>, delivered0: set<Note>,
                               emls: EmailDir, saved: seq<Report>, delivered: set<Note>) {
    if !finished && saved == saved0 && delivered == delivered0 then true
    else
      && Describes(states, inbox, seen0, emls0, epoch)
      && (saved == saved0 || saved == saved0 + InputsOf(states, emls, epoch))
      && delivered0 <= delivered <= delivered0 + Elements(NotesFor(states, emls, epoch))
      && (finished ==> saved == saved0 + InputsOf(states, emls, epoch) && delivered == delivered0 + Elements(NotesFor(states, emls, epoch)))
  }

  // ---- what one run does to the store ----

  /** What a run does, in plain words. */
  lemma FetchMeans(inbox: seq<Msg>, epoch: uint32, finished: bool, states: seq<MsgState>,
                   emls0: EmailDir, index0: seq<IndexEntry>, reports0: seq<Report>, seen0: set<uint32>, saved0: seq<Report>, delivered0: set<Note>,
                   emls: EmailDir, index: seq<IndexEntry>, reports: seq<Report>, seen: set<uint32>, saved: seq<Report>, delivered: set<Note>)
    requires DistinctUids(inbox)
    requires exists atomicFlags :: FetchEffect(inbox, epoch, atomicFlags, finished, emls0, index0, reports0, seen0, emls, index, reports, seen)
    requires SaidAndSaved(inbox, epoch, finished, states, emls0, seen0, saved0, delivered0, emls, saved, delivered)
    ensures forall uid :: uid in seen ==> uid in seen0 || exists m :: m in inbox && m.uid == uid
    ensures forall p :: p in emls0 ==> p in emls && emls[p] == emls0[p]
    ensures forall p :: p in emls && p !in emls0 ==>
              exists m :: m in inbox && p == EmailPath(epoch, m.date.year, m.date.month, m.uid) && emls[p] == m.mail
    ensures finished ==>
              forall m :: m in inbox && !(m.uid in seen0 && Path(epoch, m) in emls0) ==>
                && Path(epoch, m) in emls
                && (forall r :: Carries(emls[Path(epoch, m)], r) ==> r in saved)
                && (forall note :: NoteDue(note, m.uid, m.uid in seen0, emls[Path(epoch, m)]) ==> note in delivered)
    ensures saved0 <= saved && forall r :: r in saved[|saved0|..] ==>
              exists m :: m in inbox && !(m.uid in seen0 && Path(epoch, m) in emls0)
                          && Path(epoch, m) in emls && Carries(emls[Path(epoch, m)], r)
    ensures delivered0 <= delivered && forall note :: note in delivered - delivered0 ==>
              exists m :: m in inbox && !(m.uid in seen0 && Path(epoch, m) in emls0)
                          && Path(epoch, m) in emls && NoteDue(note, m.uid, m.uid in seen0, emls[Path(epoch, m)])
    ensures finished ==>
              forall m :: m in inbox && (forall e :: e in index0 ==> e.uid != m.uid || e.uidValidity != epoch) ==>
                && IndexEntry(m.uid, epoch, m.date) in index
                && var path := EmailPath(epoch, m.date.year, m.date.month, m.uid);
                   && PathOf(IndexEntry(m.uid, epoch, m.date)) == path
                   && path in emls && emls[path] == if path in emls0 then emls0[path] else m.mail
  {
    NewFilesAre(emls0, epoch, inbox, emls);
    EntriesLeadToFiles(index0, emls0, epoch, inbox);
    AllSaved(emls0, epoch, inbox);
    if finished || saved != saved0 || delivered != delivered0 {
      CollectedByMessage(states, inbox, seen0, emls0, emls, epoch);
    }
  }


  /** The reports a run sends to the store: those of every message it does not skip. */
  function Resent(inbox: seq<Msg>, seen: set<uint32>, emls0: EmailDir, emls: EmailDir, epoch: uint32): seq<Report> {
    if inbox == [] then []
    else
      var m := inbox[|inbox| - 1];
      Resent(inbox[..|inbox| - 1], seen, emls0, emls, epoch) +
      if (m.uid in seen && Path(epoch, m) in emls0) || Path(epoch, m) !in emls then [] else ReportsOf(emls[Path(epoch, m)])
  }

  function Uids(inbox: seq<Msg>): set<uint32> {
    set m | m in inbox :: m.uid
  }

  ghost predicate FetchEffect(inbox: seq<Msg>, epoch: uint32, atomicFlags: bool, finished: bool,
                              emls0: EmailDir, index0: seq<IndexEntry>, reports0: seq<Report>, seen0: set<uint32>,
                              emls: EmailDir, index: seq<IndexEntry>, reports: seq<Report>, seen: set<uint32>) {
    && SavedPrefix(emls0, epoch, inbox, emls)
    && (index == index0 || (index == AddMetas(index0, Metas(epoch, inbox)) && emls == Saved(emls0, epoch, inbox)))
    && (reports == reports0 || reports == Upsert(reports0, Resent(inbox, seen0, emls0, emls, epoch)))
    && (reports != reports0 || seen != seen0 || finished ==>
          && emls == Saved(emls0, epoch, inbox)
          && index == AddMetas(index0, Metas(epoch, inbox))
          && reports == Upsert(reports0, Resent(inbox, seen0, emls0, emls, epoch)))
    && seen0 <= seen <= seen0 + Uids(inbox)
    && (atomicFlags ==> seen == seen0 || seen == seen0 + Uids(inbox))
  }

  /** The files of the first messages have been saved. */
  ghost predicate SavedPrefix(emls0: EmailDir, epoch: uint32, inbox: seq<Msg>, emls: EmailDir) {
    exists k: nat :: k <= |inbox| && emls == Saved(emls0, epoch, inbox[..k])
  }

  lemma NewFilesAre(emls0: EmailDir, epoch: uint32, inbox: seq<Msg>, emls: EmailDir)
    requires SavedPrefix(emls0, epoch, inbox, emls)
    ensures forall p :: p in emls0 ==> p in emls && emls[p] == emls0[p]
    ensures forall p :: p in emls && p !in emls0 ==>
              exists m :: m in inbox && p == EmailPath(epoch, m.date.year, m.date.month, m.uid) && emls[p] == m.mail
  {
    SavedExtends(emls0, epoch, inbox, emls);
    var k: nat :| k <= |inbox| && emls == Saved(emls0, epoch, inbox[..k]);
    forall p | p in emls && p !in emls0
      ensures exists m :: m in inbox && p == EmailPath(epoch, m.date.year, m.date.month, m.uid) && emls[p] == m.mail
    {
      var m := NewFileIs(emls0, epoch, inbox[..k], p);
      assert m in inbox;
    }
  }

  lemma SavedExtends(emls0: EmailDir, epoch: uint32, inbox: seq<Msg>, emls: EmailDir)
    requires SavedPrefix(emls0, epoch, inbox, emls)
    ensures forall p :: p in emls0 ==> p in emls && emls[p] == emls0[p]
  {
    var k: nat :| k <= |inbox| && emls == Saved(emls0, epoch, inbox[..k]);
    forall p | p in emls0 ensures p in emls && emls[p] == emls0[p] {
      SavedKeeps(emls0, epoch, inbox[..k], p);
    }
  }

  /** The states describe the messages, their flags and what was stored before the run. */
  ghost predicate Describes(states: seq<MsgState>, inbox: seq<Msg>, seen: set<uint32>, emls0: EmailDir, epoch: uint32) {
    && |states| == |inbox|
    && forall i :: 0 <= i < |inbox| ==>
         && states[i].msg == inbox[i]
         && states[i].seen == (inbox[i].uid in seen)
         && states[i].existedBefore == (Path(epoch, inbox[i]) in emls0)
  }

  lemma {:induction false} InputsAreResent(states: seq<MsgState>, inbox: seq<Msg>, seen: set<uint32>, emls0: EmailDir,
                                           emls: EmailDir, epoch: uint32)
    requires Describes(states, inbox, seen, emls0, epoch)
    ensures InputsOf(states, emls, epoch) == Resent(inbox, seen, emls0, emls, epoch)
  {
    if inbox != [] {
      var n := |inbox| - 1;
      InputsAreResent(states[..n], inbox[..n], seen, emls0, emls, epoch);
    }
  }

  /** A message that was not both SEEN and stored before gives its reports, and the notes that are due about it. */
  predicate GivesReport(s: MsgState, emls: EmailDir, epoch: uint32, r: Report) {
    !(s.seen && s.existedBefore) && Path(epoch, s.msg) in emls && Carries(emls[Path(epoch, s.msg)], r)
  }

  predicate GivesNote(s: MsgState, emls: EmailDir, epoch: uint32, note: Note) {
    !(s.seen && s.existedBefore) && Path(epoch, s.msg) in emls && NoteDue(note, s.msg.uid, s.seen, emls[Path(epoch, s.msg)])
  }

  /** What is collected, message by message. */
  lemma CollectedMeans(states: seq<MsgState>, emls: EmailDir, epoch: uint32)
    ensures forall r :: r in InputsOf(states, emls, epoch) <==> exists s :: s in states && GivesReport(s, emls, epoch, r)
    ensures forall note :: note in NotesFor(states, emls, epoch) <==> exists s :: s in states && GivesNote(s, emls, epoch, note)
  {
    forall r {
      InputsMean(states, emls, epoch, r);
    }
    forall note {
      NotesMean(states, emls, epoch, note);
    }
  }

  lemma {:induction false} InputsMean(states: seq<MsgState>, emls: EmailDir, epoch: uint32, r: Report)
    ensures r in InputsOf(states, emls, epoch) <==> exists s :: s in states && GivesReport(s, emls, epoch, r)
  {
    if states != [] {
      var init, last := states[..|states| - 1], states[|states| - 1];
      InputsMean(init, emls, epoch, r);
      InAppend(InputsOf(init, emls, epoch), InputsFrom(last, emls, epoch));
      InputsFromMean(last, emls, epoch, r);
      LastIn(states);
    }
  }

  lemma InputsFromMean(s: MsgState, emls: EmailDir, epoch: uint32, r: Report)
    ensures r in InputsFrom(s, emls, epoch) <==> GivesReport(s, emls, epoch, r)
  {
    if Path(epoch, s.msg) in emls && emls[Path(epoch, s.msg)].Readable? {
      ReportsInAre(emls[Path(epoch, s.msg)].attachments, r);
    }
  }

  lemma {:induction false} NotesMean(states: seq<MsgState>, emls: EmailDir, epoch: uint32, note: Note)
    ensures note in NotesFor(states, emls, epoch) <==> exists s :: s in states && GivesNote(s, emls, epoch, note)
  {
    if states != [] {
      var init, last := states[..|states| - 1], states[|states| - 1];
      NotesMean(init, emls, epoch, note);
      InAppend(NotesFor(init, emls, epoch), NotesFrom(last, emls, epoch));
      NotesFromMean(last, emls, epoch, note);
      LastIn(states);
    }
  }

  lemma NotesFromMean(s: MsgState, emls: EmailDir, epoch: uint32, note: Note)
    ensures note in NotesFrom(s, emls, epoch) <==> GivesNote(s, emls, epoch, note)
  {
    if Path(epoch, s.msg) in emls {
      NotesAreDue(s.msg.uid, s.seen, emls[Path(epoch, s.msg)], note);
    }
  }

  /** The same by message instead of by state. */
  lemma CollectedByMessage(states: seq<MsgState>, inbox: seq<Msg>, seen: set<uint32>, emls0: EmailDir, emls: EmailDir, epoch: uint32)
    requires Describes(states, inbox, seen, emls0, epoch)
    ensures forall r :: r in InputsOf(states, emls, epoch) <==>
              exists m :: m in inbox && !(m.uid in seen && Path(epoch, m) in emls0)
                          && Path(epoch, m) in emls && Carries(emls[Path(epoch, m)], r)
    ensures forall note :: note in NotesFor(states, emls, epoch) <==>
              exists m :: m in inbox && !(m.uid in seen && Path(epoch, m) in emls0)
                          && Path(epoch, m) in emls && NoteDue(note, m.uid, m.uid in seen, emls[Path(epoch, m)])
  {
    forall r {
      InputsByMessage(states, inbox, seen, emls0, emls, epoch, r);
    }
    forall note {
      NotesByMessage(states, inbox, seen, emls0, emls, epoch, note);
    }
  }

  lemma InputsByMessage(states: seq<MsgState>, inbox: seq<Msg>, seen: set<uint32>, emls0: EmailDir, emls: EmailDir, epoch: uint32, r: Report)
    requires Describes(states, inbox, seen, emls0, epoch)
    ensures r in InputsOf(states, emls, epoch) <==>
            exists m :: m in inbox && !(m.uid in seen && Path(epoch, m) in emls0)
                        && Path(epoch, m) in emls && Carries(emls[Path(epoch, m)], r)
  {
    InputsMean(states, emls, epoch, r);
    if s :| s in states && GivesReport(s, emls, epoch, r) {
      var i :| 0 <= i < |states| && states[i] == s;
      assert inbox[i] == s.msg && s.msg in inbox;
    }
    if m :| m in inbox && !(m.uid in seen && Path(epoch, m) in emls0) && Path(epoch, m) in emls && Carries(emls[Path(epoch, m)], r) {
      var i :| 0 <= i < |inbox| && inbox[i] == m;
      assert states[i] in states && GivesReport(states[i], emls, epoch, r);
    }
  }

  lemma NotesByMessage(states: seq<MsgState>, inbox: seq<Msg>, seen: set<uint32>, emls0: EmailDir, emls: EmailDir, epoch: uint32, note: Note)
    requires Describes(states, inbox, seen, emls0, epoch)
    ensures note in NotesFor(states, emls, epoch) <==>
            exists m :: m in inbox && !(m.uid in seen && Path(epoch, m) in emls0)
                        && Path(epoch, m) in emls && NoteDue(note, m.uid, m.uid in seen, emls[Path(epoch, m)])
  {
    NotesMean(states, emls, epoch, note);
    if s :| s in states && GivesNote(s, emls, epoch, note) {
      var i :| 0 <= i < |states| && states[i] == s;
      assert inbox[i] == s.msg && s.msg in inbox;
    }
    if m :| m in inbox && !(m.uid in seen && Path(epoch, m) in emls0) && Path(epoch, m) in emls
            && NoteDue(note, m.uid, m.uid in seen, emls[Path(epoch, m)]) {
      var i :| 0 <= i < |inbox| && inbox[i] == m;
      assert states[i] in states && GivesNote(states[i], emls, epoch, note);
    }
  }

  /** What was collected includes everything about each message that was not skipped. */
  lemma {:induction false} Collected(states: seq<MsgState>, i: nat, emls: EmailDir, epoch: uint32)
    requires i < |states| && !Skipped(states[i]) && Path(epoch, states[i].msg) in emls
    ensures var s, mail := states[i], emls[Path(epoch, states[i].msg)];
      && (forall r :: r in ReportsOf(mail) ==> r in InputsOf(states, emls, epoch))
      && (forall n :: n in NotesOf(s.msg.uid, s.seen, mail) ==> n in NotesFor(states, emls, epoch))
  {
    var n := |states| - 1;
    InAppend(InputsOf(states[..n], emls, epoch), InputsFrom(states[n], emls, epoch));
    InAppend(NotesFor(states[..n], emls, epoch), NotesFrom(states[n], emls, epoch));
    if i < n {
      Collected(states[..n], i, emls, epoch);
    }
  }

  lemma JustAcknowledged(states: seq<MsgState>, inbox: seq<Msg>, epoch: uint32, emls: EmailDir,
                         index: seq<IndexEntry>, saved: seq<Report>, delivered: set<Note>)
    requires |states| == |inbox| && forall i :: 0 <= i < |inbox| ==> states[i].msg == inbox[i] && Path(epoch, inbox[i]) in emls
    requires Keys(Metas(epoch, inbox)) <= Keys(index)
    requires forall r :: r in InputsOf(states, emls, epoch) ==> r in saved
    requires forall n :: n in NotesFor(states, emls, epoch) ==> n in delivered
    ensures forall i :: 0 <= i < |states| && !states[i].seen ==>
              Acknowledged(states[i].msg.uid, states[i].msg.date, epoch, emls, index, saved, delivered)
  {
    forall i | 0 <= i < |states| && !states[i].seen
      ensures Acknowledged(inbox[i].uid, inbox[i].date, epoch, emls, index, saved, delivered)
    {
      Collected(states, i, emls, epoch);
      assert Metas(epoch, inbox)[i] in Metas(epoch, inbox);
      assert Indexed(Metas(epoch, inbox), KeyOf(Meta(epoch, inbox[i])));
      assert KeyOf(Meta(epoch, inbox[i])) in Keys(index);
    }
  }

  lemma SavedIsStored(base: seq<Report>, saved: seq<Report>, r: Report)
    requires r in saved
    ensures exists s :: s in Upsert(base, saved) && s.id == r.id
  {
    var k :| 0 <= k < |saved| && saved[k] == r;
    assert LastIndex(saved, r.id) >= k;
    FindAfterUpsert(base, saved, r.id);
  }

  lemma UnseenUids(states: seq<MsgState>, inbox: seq<Msg>, seen: set<uint32>, emls0: EmailDir, epoch: uint32)
    requires Describes(states, inbox, seen, emls0, epoch)
    ensures seen + Tool.UnseenOf(states) == seen + Uids(inbox)
  {
    forall m | m in inbox && m.uid !in seen ensures exists s :: s in states && !s.seen && s.msg.uid == m.uid {
      var i :| 0 <= i < |inbox| && inbox[i] == m;
      assert states[i] in states && states[i].msg.uid == m.uid;
    }
    forall s | s in states ensures s.msg in inbox {
      var i :| 0 <= i < |states| && states[i] == s;
      assert inbox[i] in inbox;
    }
  }
}
