/** internal/notify/handler.go: the buffer that Handle appends to and Flush swaps out. */
module SlackBuffer {
  import opened Sequences

  class SlackHandler<R> {
    var buf: seq<R>
    /** Every record handled so far, and every snapshot a flush has taken, in order. */
    ghost var handled: seq<R>
    ghost var snapshots: seq<seq<R>>

    ghost predicate Valid()
      reads this
    {
      Flatten(snapshots) + buf == handled
    }

    constructor ()
      ensures Valid() && buf == handled == [] && snapshots == []
    {
      buf, handled, snapshots := [], [], [];
    }

    /** Runs under the mutex. */
    method Handle(r: R)
      requires Valid()
      modifies this
      ensures Valid()
      ensures handled == old(handled) + [r] && snapshots == old(snapshots)
    {
      assert Flatten(snapshots) + (buf + [r]) == (Flatten(snapshots) + buf) + [r];
      buf, handled := buf + [r], handled + [r];
    }

    /** Runs under the mutex. */
    method TakeSnapshot() returns (snapshot: seq<R>)
      requires Valid()
      modifies this
      ensures Valid()
      ensures snapshot == old(buf) && buf == []
      ensures handled == old(handled) && snapshots == old(snapshots) + [snapshot]
    {
      snapshot := buf;
      buf := [];
      assert (snapshots + [snapshot])[..|snapshots|] == snapshots;
      snapshots := snapshots + [snapshot];
    }

    /** Other goroutines between two critical sections of this one: they handle records and take snapshots. */
    method OthersRun(records: seq<R>)
      requires Valid()
      modifies this
      ensures Valid()
      ensures handled == old(handled) + records && old(snapshots) <= snapshots
    {
      for i := 0 to |records|
        invariant Valid() && handled == old(handled) + records[..i] && old(snapshots) <= snapshots
      {
        Handle(records[i]);
        assert records[..i + 1] == records[..i] + [records[i]];
        var flushes: bool := *;
        if flushes {
          var _ := TakeSnapshot();
        }
      }
      assert records[..|records|] == records;
    }

    /** Flush sends what was buffered when it started; records handled during the send wait for the next flush. */
    method Flush(meanwhile: seq<R>) returns (sent: seq<R>, ok: bool)
      requires Valid()
      modifies this
      ensures Valid()
      ensures sent == old(buf)
      ensures handled == old(handled) + (if sent == [] then [] else meanwhile)
      ensures old(snapshots) + [sent] <= snapshots
      ensures sent == [] ==> ok
    {
      sent := TakeSnapshot();
      if |sent| == 0 {
        return sent, true;
      }
      OthersRun(meanwhile);
      ok := *;
    }
  }

  function Offset<R>(parts: seq<seq<R>>, k: nat): nat
    requires k <= |parts|
  {
    |Flatten(parts[..k])|
  }

  /** Every record handled is in the snapshot of some flush, or still in the buffer. */
  lemma {:induction false} RecordIsSomewhere<R>(parts: seq<seq<R>>, buf: seq<R>, i: nat) returns (k: nat, j: nat)
    requires i < |Flatten(parts) + buf|
    ensures if i < |Flatten(parts)|
            then k < |parts| && j < |parts[k]| && Offset(parts, k) + j == i && parts[k][j] == (Flatten(parts) + buf)[i]
            else j < |buf| && buf[j] == (Flatten(parts) + buf)[i]
  {
    if i >= |Flatten(parts)| {
      k, j := 0, i - |Flatten(parts)|;
    } else {
      var n := |parts| - 1;
      if i < |Flatten(parts[..n])| {
        k, j := RecordIsSomewhere(parts[..n], parts[n], i);
        assert parts[..n][..k] == parts[..k];
      } else {
        k, j := n, i - |Flatten(parts[..n])|;
      }
    }
  }

  lemma {:induction false} OffsetsGrow<R>(parts: seq<seq<R>>, k: nat, m: nat)
    requires k < m <= |parts|
    ensures Offset(parts, k) + |parts[k]| <= Offset(parts, m)
  {
    assert parts[..m][..m - 1] == parts[..m - 1];
    if k < m - 1 {
      OffsetsGrow(parts, k, m - 1);
    }
  }

  /** And in one snapshot only: the position among all handled records decides which. */
  lemma RecordIsInOneFlush<R>(parts: seq<seq<R>>, k: nat, j: nat, k': nat, j': nat)
    requires k < |parts| && j < |parts[k]| && k' < |parts| && j' < |parts[k']|
    requires Offset(parts, k) + j == Offset(parts, k') + j'
    ensures k == k' && j == j'
  {
    if k < k' {
      OffsetsGrow(parts, k, k');
    } else if k' < k {
      OffsetsGrow(parts, k', k);
    }
  }
}
