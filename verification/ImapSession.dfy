/** internal/imap/client.go: the client's session with a server on which other clients act at the same
    time. Section 6.4.2 of RFC 3501 (CLOSE expunges a read-write selection) and section 2.1 of RFC 4315
    (UID EXPUNGE) decide what can be removed. */
module ImapSession {
  import opened Types

  datatype Selection = NotSelected | Examined | ReadWrite

  /** A message on the server. `day` is its INTERNALDATE truncated to a date. */
  datatype Message = Message(day: nat, seen: bool, deleted: bool)

  datatype Flag = Seen | Deleted

  datatype Outcome = Ok | ErrMailboxReadOnly | Failed

  datatype Call =
    | FetchMeta(since: nat)
    | Download(uids: set<uint32>)
    | MarkSeen(uids: set<uint32>)
    | DeleteOlderThan(cutoff: Option<nat>)
    | SearchOlderThan(cutoff: Option<nat>)

  type Mailbox = map<uint32, Message>

  function Flagged(messages: Mailbox, uids: set<uint32>, flag: Flag): Mailbox {
    map uid | uid in messages ::
      if uid !in uids then messages[uid]
      else if flag == Seen then messages[uid].(seen := true)
      else messages[uid].(deleted := true)
  }

  function Before(messages: Mailbox, day: nat): set<uint32> {
    set uid | uid in messages && messages[uid].day < day
  }

  /** A UID EXPUNGE leaves what is not named or not flagged \Deleted. */
  function Expunged(messages: Mailbox, uids: set<uint32>): Mailbox {
    messages - set uid | uid in messages && uid in uids && messages[uid].deleted
  }

  lemma NothingToRemove(messages: Mailbox)
    ensures messages - {} == messages
  {
  }

  lemma FlagThenExpunge(messages: Mailbox, uids: set<uint32>)
    ensures Expunged(Flagged(messages, uids, Deleted), uids) == messages - uids
  {
  }

  /** The connection and the mailbox behind it. Before every command other clients may have changed
      flags, added messages or removed some of their own accord. */
  class Server {
    var messages: Mailbox
    var selection: Selection
    /** The connection is gone: every further command fails and has no effect. */
    var lost: bool
    const uidplus: bool
    /** No other client changes the mailbox. */
    const alone: bool
    /** It stays up, carries out every command and grants read-write selections. */
    const willing: bool
    /** What this session has removed. */
    ghost var removed: set<uint32>

    constructor (messages: Mailbox, uidplus: bool, alone: bool, willing: bool)
      ensures this.messages == messages && this.uidplus == uidplus && this.alone == alone && this.willing == willing
      ensures selection == NotSelected && !lost && removed == {}
    {
      this.messages, this.uidplus, this.alone, this.willing := messages, uidplus, alone, willing;
      selection, lost, removed := NotSelected, false, {};
    }

    /** The messages that are there or that this session has removed. */
    ghost function Ever(): set<uint32>
      reads this
    {
      messages.Keys + removed
    }

    method OthersAct()
      modifies `messages, `lost
      ensures alone ==> messages == old(messages)
      ensures willing ==> lost == old(lost)
    {
      if !alone {
        messages := *;
      }
      var drops: bool := *;
      lost := lost || (drops && !willing);
    }

    /** SELECT or EXAMINE. A refusal leaves nothing selected; a mailbox reported read-only is not selected
        read-write. */
    method Select(readOnly: bool) returns (ok: bool, reportedReadOnly: bool)
      modifies `messages, `lost, `selection
      ensures ok && readOnly ==> selection == Examined
      ensures ok && reportedReadOnly ==> selection == Examined
      ensures ok ==> selection != NotSelected
      ensures !ok ==> selection == NotSelected || selection == old(selection)
      ensures !ok && !lost ==> selection == NotSelected
      ensures willing && !old(lost) ==> ok && !lost && (!readOnly ==> selection == ReadWrite && !reportedReadOnly)
      ensures alone ==> messages == old(messages)
    {
      OthersAct();
      if lost {
        return false, false;
      }
      var refused: bool := *;
      if refused && !willing {
        selection := NotSelected;
        return false, false;
      }
      var granted: bool := *;
      if readOnly || !(granted || willing) {
        selection := Examined;
        reportedReadOnly := *;
      } else {
        selection := ReadWrite;
        reportedReadOnly := false;
      }
      ok := true;
    }

    /** UID SEARCH BEFORE. */
    method SearchBefore(day: nat) returns (ok: bool, uids: set<uint32>)
      modifies `messages, `lost
      ensures uids == if ok then Before(messages, day) else {}
      ensures willing && !old(lost) && selection != NotSelected ==> ok && !lost
      ensures alone ==> messages == old(messages)
    {
      OthersAct();
      ok := *;
      ok := (ok || willing) && !lost && selection != NotSelected;
      uids := if ok then Before(messages, day) else {};
    }

    /** Any read: UID SEARCH SINCE, UID FETCH. */
    method Read() returns (ok: bool)
      modifies `messages, `lost
      ensures willing && !old(lost) && selection != NotSelected ==> ok && !lost
      ensures alone ==> messages == old(messages)
    {
      OthersAct();
      ok := *;
      ok := (ok || willing) && !lost && selection != NotSelected;
    }

    /** UID STORE +FLAGS: a failure may leave some messages flagged. */
    method Store(uids: set<uint32>, flag: Flag) returns (ok: bool)
      modifies `messages, `lost
      ensures alone ==> exists reached :: reached <= uids && messages == Flagged(old(messages), reached, flag)
      ensures alone && ok ==> messages == Flagged(old(messages), uids, flag)
      ensures willing && !old(lost) && selection == ReadWrite ==> ok && !lost
    {
      OthersAct();
      ok := *;
      ok := ok || willing;
      if lost || selection != ReadWrite {
        assert Flagged(messages, {}, flag) == messages;
        return false;
      }
      var reached: set<uint32> := *;
      reached := if ok then uids else reached * uids;
      messages := Flagged(messages, reached, flag);
    }

    /** UID EXPUNGE removes only messages that are both named and flagged \Deleted. */
    method Expunge(uids: set<uint32>) returns (ok: bool)
      modifies `messages, `lost, `removed
      ensures old(removed) <= removed <= old(removed) + uids
      ensures alone ==> Ever() == old(Ever())
      ensures alone && ok ==> messages == Expunged(old(messages), uids)
      ensures willing && !old(lost) && selection == ReadWrite ==> ok && !lost
    {
      OthersAct();
      ok := *;
      ok := ok || willing;
      if lost || selection != ReadWrite {
        return false;
      }
      var reached: set<uint32> := *;
      reached := if ok then uids else reached * uids;
      removed := removed + (messages.Keys - Expunged(messages, reached).Keys);
      messages := Expunged(messages, reached);
    }

    /** CLOSE removes every \Deleted message of a read-write selection, whoever flagged it. */
    method Close() returns (ok: bool)
      modifies `messages, `lost, `removed, `selection
      ensures old(removed) <= removed
      ensures old(selection) != ReadWrite ==> removed == old(removed)
      ensures alone && old(selection) != ReadWrite ==> messages == old(messages)
      ensures alone && ok && old(selection) == ReadWrite ==> messages == Expunged(old(messages), old(messages).Keys)
    {
      OthersAct();
      if lost || selection == NotSelected {
        return false;
      }
      if selection == ReadWrite {
        removed := removed + (messages.Keys - Expunged(messages, messages.Keys).Keys);
        messages := Expunged(messages, messages.Keys);
      }
      selection := NotSelected;
      ok := true;
    }

    /** LOGOUT never expunges. */
    method Logout() returns (ok: bool)
      modifies `messages, `lost, `selection
      ensures alone ==> messages == old(messages)
    {
      OthersAct();
      ok := !lost;
      selection := NotSelected;
    }
  }

  class Client {
    const server: Server
    var lastSelectReadOnly: bool
    /** The UIDs that some DeleteOlderThan found with its BEFORE search. */
    ghost var searched: set<uint32>

    ghost predicate Valid()
      reads this, server
    {
      && (lastSelectReadOnly ==> server.selection != ReadWrite)
      && server.removed <= searched
    }

    constructor (server: Server)
      requires server.selection == NotSelected && server.removed == {}
      ensures Valid() && this.server == server && searched == {}
    {
      this.server, lastSelectReadOnly, searched := server, false, {};
    }

    method SelectMailbox(readOnly: bool) returns (ok: bool, reportedReadOnly: bool)
      requires Valid()
      modifies this`lastSelectReadOnly, server`messages, server`lost, server`selection
      ensures Valid()
      ensures ok && readOnly ==> server.selection == Examined
      ensures ok ==> lastSelectReadOnly == reportedReadOnly
      ensures server.willing && !old(server.lost) ==>
                ok && !server.lost && server.selection != NotSelected
                && (!readOnly ==> server.selection == ReadWrite && !reportedReadOnly)
      ensures server.alone ==> server.messages == old(server.messages)
    {
      ok, reportedReadOnly := server.Select(readOnly);
      if ok {
        lastSelectReadOnly := reportedReadOnly;
      }
    }

    /** FetchMeta and Download: EXAMINE, then reads. */
    method ReadMailbox(commands: nat) returns (r: Outcome)
      requires Valid()
      modifies this`lastSelectReadOnly, server`messages, server`lost, server`selection
      ensures Valid() && server.removed == old(server.removed)
      ensures server.alone ==> server.messages == old(server.messages)
    {
      var ok, _ := server.Select(true);
      if !ok {
        return Failed;
      }
      lastSelectReadOnly := true;
      for i := 0 to commands
        invariant Valid() && server.removed == old(server.removed)
        invariant server.alone ==> server.messages == old(server.messages)
      {
        ok := server.Read();
        if !ok {
          return Failed;
        }
      }
      return Ok;
    }

    method MarkSeen(uids: set<uint32>) returns (r: Outcome)
      requires Valid()
      modifies this`lastSelectReadOnly, server`messages, server`lost, server`selection
      ensures Valid() && server.removed == old(server.removed)
      ensures server.alone ==> exists reached :: reached <= uids && server.messages == Flagged(old(server.messages), reached, Seen)
      ensures server.alone && r == Ok ==> server.messages == Flagged(old(server.messages), uids, Seen)
      ensures server.willing && !old(server.lost) ==> r == Ok
      // in the messages' own fields
      ensures server.alone && r == Ok ==>
                && server.messages.Keys == old(server.messages).Keys
                && forall uid :: uid in server.messages ==>
                     server.messages[uid] == Message(old(server.messages)[uid].day, old(server.messages)[uid].seen || uid in uids,
                                                     old(server.messages)[uid].deleted)
    {
      assert Flagged(server.messages, {}, Seen) == server.messages;
      if uids == {} {
        return Ok;
      }
      var ok, readOnly := SelectMailbox(false);
      if !ok {
        return Failed;
      }
      if readOnly {
        return ErrMailboxReadOnly;
      }
      ok := server.Store(uids, Seen);
      return if ok then Ok else Failed;
    }

    method DeleteOlderThan(cutoff: Option<nat>) returns (r: Outcome, deleted: nat, ghost found: set<uint32>)
      requires Valid()
      modifies this, server
      ensures Valid()
      ensures searched == old(searched) + found
      ensures server.removed <= old(server.removed) + found
      ensures cutoff.None? || !server.uidplus ==> (r == Ok && deleted == 0 && found == {}) || r == Failed
      ensures r != Ok ==> deleted == 0
      ensures r == Ok ==> deleted == |found|
      ensures server.alone ==> server.Ever() == old(server.Ever())
      ensures server.alone && r == Ok ==> server.messages == old(server.messages) - found
      ensures server.alone && r == Ok && cutoff.Some? && server.uidplus ==> found == Before(old(server.messages), cutoff.value)
      ensures server.willing && !old(server.lost) ==> r == Ok
      // in days: what is older goes, the rest stays as it is
      ensures server.alone && r == Ok && cutoff.Some? && server.uidplus ==>
                && (forall uid :: uid in server.messages <==> uid in old(server.messages) && old(server.messages)[uid].day >= cutoff.value)
                && (forall uid :: uid in server.messages ==> server.messages[uid] == old(server.messages)[uid])
    {
      deleted, found := 0, {};
      if cutoff.None? {
        return Ok, 0, {};
      }
      var known: bool := *;
      if !known && !server.willing {
        return Failed, 0, {};
      }
      if !server.uidplus {
        return Ok, 0, {};
      }
      var ok, readOnly := SelectMailbox(false);
      if !ok {
        return Failed, 0, {};
      }
      if readOnly {
        return ErrMailboxReadOnly, 0, {};
      }
      r, deleted, found := RemoveBefore(cutoff.value);
      searched := searched + found;
    }

    method RemoveBefore(day: nat) returns (r: Outcome, deleted: nat, found: set<uint32>)
      modifies server`messages, server`lost, server`removed
      ensures server.removed <= old(server.removed) + found
      ensures server.alone ==> server.Ever() == old(server.Ever())
      ensures server.alone && r == Ok ==> found == Before(old(server.messages), day) && server.messages == old(server.messages) - found
      ensures r in {Ok, Failed} && deleted == if r == Ok then |found| else 0
      ensures server.willing && !old(server.lost) && server.selection == ReadWrite ==> r == Ok
    {
      var ok;
      ok, found := server.SearchBefore(day);
      if !ok {
        return Failed, 0, found;
      }
      if found == {} {
        NothingToRemove(server.messages);
        return Ok, 0, found;
      }
      r := RemoveFound(found);
      deleted := if r == Ok then |found| else 0;
    }

    /** Flags what the search found and expunges it by UID, so that nobody else's \Deleted message goes with it. */
    method RemoveFound(uids: set<uint32>) returns (r: Outcome)
      modifies server`messages, server`lost, server`removed
      ensures old(server.removed) <= server.removed <= old(server.removed) + uids
      ensures server.alone ==> server.Ever() == old(server.Ever())
      ensures server.alone && r == Ok ==> server.messages == old(server.messages) - uids
      ensures r == Ok || r == Failed
      ensures server.willing && !old(server.lost) && server.selection == ReadWrite ==> r == Ok
    {
      var ok := server.Store(uids, Deleted);
      if !ok {
        return Failed;
      }
      FlagThenExpunge(old(server.messages), uids);
      ok := server.Expunge(uids);
      return if ok then Ok else Failed;
    }

    method SearchOlderThan(cutoff: Option<nat>) returns (r: Outcome, uids: set<uint32>)
      requires Valid()
      modifies this`lastSelectReadOnly, server`messages, server`lost, server`selection
      ensures Valid() && server.removed == old(server.removed)
      ensures cutoff.None? ==> r == Ok && uids == {}
      ensures server.alone ==> server.messages == old(server.messages)
      ensures r == Ok && cutoff.Some? ==> uids == Before(server.messages, cutoff.value)
    {
      if cutoff.None? {
        return Ok, {};
      }
      var ok, _ := SelectMailbox(true);
      if !ok {
        return Failed, {};
      }
      ok, uids := server.SearchBefore(cutoff.value);
      return if ok then Ok else Failed, uids;
    }

    /** CLOSE only after a read-only selection, then LOGOUT: closing removes nothing. */
    method Close() returns (r: Outcome)
      requires Valid()
      modifies server
      ensures server.removed == old(server.removed)
      ensures server.alone ==> server.messages == old(server.messages)
    {
      if lastSelectReadOnly {
        var _ := server.Close();
      }
      var ok := server.Logout();
      return if ok then Ok else Failed;
    }

    /** No collateral expunge: over any calls ending in Close, every message this session removed had its UID
        in the BEFORE search of a DeleteOlderThan. */
    method WholeSession(calls: seq<Call>) returns (r: Outcome)
      requires Valid()
      modifies this, server
      ensures server.removed <= searched
      ensures server.alone ==> old(server.messages).Keys - server.messages.Keys <= searched
    {
      for i := 0 to |calls|
        invariant Valid()
        invariant server.alone ==> server.Ever() == old(server.Ever())
      {
        // the context may have ended
        var skipped: bool := *;
        if !skipped {
          match calls[i] {
            case FetchMeta(_) => r := ReadMailbox(2);
            case Download(uids) => if uids != {} { r := ReadMailbox(1); }
            case MarkSeen(uids) => r := MarkSeen(uids);
            case DeleteOlderThan(cutoff) =>
              var _, _, _ := DeleteOlderThan(cutoff);
            case SearchOlderThan(cutoff) =>
              var _, _ := SearchOlderThan(cutoff);
          }
        }
      }
      r := Close();
    }
  }
}
