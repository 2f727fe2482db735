/** What holds along every run: a run is the list of atomic operations that reached the disk,
    whatever commands issued them and wherever those commands crashed. */
module ResetRuns {
  import opened Types
  import opened Disk

  function Run(d: Disk, ops: seq<Op>): Disk {
    if ops == [] then d else Apply(Run(d, ops[..|ops| - 1]), ops[|ops| - 1])
  }

  ghost predicate AllAllowed(d: Disk, ops: seq<Op>) {
    ops == [] || (AllAllowed(d, ops[..|ops| - 1]) && Allowed(Run(d, ops[..|ops| - 1]), ops[|ops| - 1]))
  }

  /** The disk after the first `i` operations. */
  function At(d: Disk, ops: seq<Op>, i: nat): Disk
    requires i <= |ops|
  {
    Run(d, ops[..i])
  }

  lemma RunSnoc(d: Disk, ops: seq<Op>, op: Op)
    ensures Run(d, ops + [op]) == Apply(Run(d, ops), op)
    ensures AllAllowed(d, ops + [op]) <==> AllAllowed(d, ops) && Allowed(Run(d, ops), op)
  {
    assert (ops + [op])[..|ops|] == ops;
  }

  /** One more allowed operation. */
  lemma Extend(start: Disk, ops: seq<Op>, op: Op) returns (longer: seq<Op>, d: Disk)
    requires AllAllowed(start, ops) && Allowed(Run(start, ops), op)
    ensures longer == ops + [op] && AllAllowed(start, longer)
    ensures d == Run(start, longer) == Apply(Run(start, ops), op)
  {
    longer := ops + [op];
    d := Apply(Run(start, ops), op);
    RunSnoc(start, ops, op);
  }

  /** Every moment of a run follows from the one before by an allowed operation. */
  lemma {:induction false} RunStep(d: Disk, ops: seq<Op>, i: nat)
    requires AllAllowed(d, ops) && i < |ops|
    ensures Allowed(At(d, ops, i), ops[i])
    ensures At(d, ops, i + 1) == Apply(At(d, ops, i), ops[i])
  {
    var n := |ops| - 1;
    if i < n {
      RunStep(d, ops[..n], i);
      assert ops[..n][..i] == ops[..i] && ops[..n][..i + 1] == ops[..i + 1];
    } else {
      assert ops[..n + 1] == ops && ops[..i + 1][..i] == ops[..i];
    }
  }

  /** The invariant holds at every moment of every run, so also at every crash. */
  lemma {:induction false} RunKeepsInv(d: Disk, ops: seq<Op>, i: nat)
    requires Inv(d) && AllAllowed(d, ops) && i <= |ops|
    ensures Inv(At(d, ops, i))
  {
    if i > 0 {
      RunKeepsInv(d, ops, i - 1);
      RunStep(d, ops, i - 1);
      StepKeepsInv(At(d, ops, i - 1), ops[i - 1]);
    }
  }

  /** Refinement: every atomic operation of every run is one step of the abstract store, in
      which a reset and a keep-old are single indivisible changes. */
  lemma RunRefines(d: Disk, ops: seq<Op>, i: nat)
    requires Inv(d) && AllAllowed(d, ops) && i < |ops|
    ensures AbsNext(Abs(At(d, ops, i)), EventOf(At(d, ops, i), ops[i]), Abs(At(d, ops, i + 1)))
  {
    RunKeepsInv(d, ops, i);
    RunStep(d, ops, i);
    StepRefines(At(d, ops, i), ops[i]);
  }

  /** UIDVALIDITY moves from one value to another only in the one sentinel write that also
      clears a recovery that leads from the first value to the second. */
  lemma UidValidityMovesAtomically(d: Disk, ops: seq<Op>, i: nat, v: uint32)
    requires Inv(d) && AllAllowed(d, ops) && i < |ops|
    requires UidValidityOf(At(d, ops, i)) == Some(v) && UidValidityOf(At(d, ops, i + 1)) != Some(v)
    ensures var next := At(d, ops, i + 1);
      && ops[i].WriteSentinel?
      && next.sentinel.Some? && next.sentinel.value.uidValidity.Some?
      && RecoveryOf(At(d, ops, i)) == Some(Recovery(v, next.sentinel.value.uidValidity.value))
      && RecoveryOf(next).None?
  {
    RunKeepsInv(d, ops, i);
    RunStep(d, ops, i);
  }

  /** The recovery itself moves only through the writes that take the exclusive guard. */
  predicate WritesRecovery(d: Disk, op: Op) {
    op.WriteSentinel? && op.sentinel.recovery != RecoveryOf(d)
  }

  ghost predicate RecoveryThroughout(d: Disk, ops: seq<Op>, i: nat, j: nat)
    requires i <= j <= |ops|
  {
    forall k :: i <= k <= j ==> RecoveryOf(At(d, ops, k)).Some?
  }

  /** While a recovery is recorded the live content does not change, although the reset moves
      its files and crashes may fall anywhere. */
  lemma {:induction false} RecoveryFreezesStore(d: Disk, ops: seq<Op>, i: nat, j: nat)
    requires Inv(d) && AllAllowed(d, ops) && i <= j <= |ops|
    requires RecoveryThroughout(d, ops, i, j)
    ensures Abs(At(d, ops, j)) == Abs(At(d, ops, i))
  {
    if i < j {
      RecoveryFreezesStore(d, ops, i, j - 1);
      RunRefines(d, ops, j - 1);
    }
  }

  /** keep-old preserves data: when the keep-old commit lands, tlsrpt.json and emails/ in the root
      are those present when the recovery was declared, however many discard attempts crashed
      in between without writing their manifest. */
  lemma KeepOldPreservesData(d: Disk, ops: seq<Op>, i: nat, j: nat)
    requires Inv(d) && AllAllowed(d, ops) && i < j < |ops|
    requires EventOf(At(d, ops, i), ops[i]).Declare?
    requires RecoveryThroughout(d, ops, i + 1, j)
    requires EventOf(At(d, ops, j), ops[j]) == KeepOld
    ensures !Pending(At(d, ops, j)) && !PreCommitManifest(At(d, ops, j))
    ensures RootData(At(d, ops, j + 1)) == RootData(At(d, ops, i))
    ensures RootEmails(At(d, ops, j + 1)) == RootEmails(At(d, ops, i))
  {
    RecoveryFreezesStore(d, ops, i + 1, j);
    RunRefines(d, ops, i);
    RunStep(d, ops, j);
    RunKeepsInv(d, ops, j);
  }

  /** Live content is lost in a single step only when a reset commits, and then all of it is
      what the store held when that reset's manifest was in place and its recovery recorded. */
  lemma ContentChangesOnlyByWriterOrCommit(d: Disk, ops: seq<Op>, i: nat)
    requires Inv(d) && AllAllowed(d, ops) && i < |ops|
    requires Live(At(d, ops, i + 1)) != Live(At(d, ops, i))
    ensures var before := At(d, ops, i);
      || (RecoveryOf(before).None? && (ops[i].WriteData? || ops[i].WriteEmail? || ops[i].RemoveEmail?))
      || (Pending(before) && ops[i] == WriteSentinel(Sentinel(Some(before.manifest.value.curr), None)))
  {
    RunRefines(d, ops, i);
    RunStep(d, ops, i);
  }

  /** If a reset was pending at some moment and no longer is, its commit lies in between and discards what
      was live then. */
  lemma {:induction false} PendingResetCommits(d: Disk, ops: seq<Op>, i: nat) returns (c: nat)
    requires Inv(d) && AllAllowed(d, ops) && i <= |ops|
    requires Pending(At(d, ops, i)) && !Pending(Run(d, ops))
    ensures i <= c < |ops| && Pending(At(d, ops, c)) && EventOf(At(d, ops, c), ops[c]) == Discard
    ensures RecoveryThroughout(d, ops, i, c) && Live(At(d, ops, c)) == Live(At(d, ops, i))
  {
    assert ops[..|ops|] == ops;
    c := i;
    while Pending(At(d, ops, c + 1))
      invariant i <= c < |ops| && Pending(At(d, ops, c))
      invariant RecoveryThroughout(d, ops, i, c)
      decreases |ops| - c
    {
      c := c + 1;
    }
    RunKeepsInv(d, ops, c);
    RunStep(d, ops, c);
    PendingEndsByCommit(At(d, ops, c), ops[c]);
    RecoveryFreezesStore(d, ops, i, c);
  }

  /** Staging is discarded only when it holds nothing live: outside a pending reset, reports found in staging are
      those that a reset discarded with its commit. */
  lemma {:induction false} StagedDataWasDiscarded(ops: seq<Op>) returns (c: nat)
    requires AllAllowed(EmptyDisk, ops) && !Pending(Run(EmptyDisk, ops))
    requires StagedData(Run(EmptyDisk, ops)) != EmptyData
    ensures c < |ops| && EventOf(At(EmptyDisk, ops, c), ops[c]) == Discard
    ensures Live(At(EmptyDisk, ops, c)).data == StagedData(Run(EmptyDisk, ops))
  {
    var n := |ops| - 1;
    var before := Run(EmptyDisk, ops[..n]);
    LastStep(ops);
    if Pending(before) {
      c := n;
      PendingEndsByCommit(before, ops[n]);
    } else {
      c := StagedDataWasDiscarded(ops[..n]);
      assert ops[..n][..c] == ops[..c];
    }
  }

  /** The same for each email found in staging. */
  lemma {:induction false} StagedEmailWasDiscarded(ops: seq<Op>, path: EmailPath) returns (c: nat)
    requires AllAllowed(EmptyDisk, ops) && !Pending(Run(EmptyDisk, ops))
    requires path in StagedEmails(Run(EmptyDisk, ops))
    ensures c < |ops| && EventOf(At(EmptyDisk, ops, c), ops[c]) == Discard
    ensures path in Live(At(EmptyDisk, ops, c)).emails
    ensures Live(At(EmptyDisk, ops, c)).emails[path] == StagedEmails(Run(EmptyDisk, ops))[path]
  {
    var n := |ops| - 1;
    var before := Run(EmptyDisk, ops[..n]);
    LastStep(ops);
    if Pending(before) {
      c := n;
      PendingEndsByCommit(before, ops[n]);
    } else {
      c := StagedEmailWasDiscarded(ops[..n], path);
      assert ops[..n][..c] == ops[..c];
    }
  }

  /** A write-ahead manifest that is not that of the recorded recovery belongs to a reset that has committed. */
  lemma {:induction false} MismatchedManifestWasCommitted(ops: seq<Op>) returns (c: nat)
    requires AllAllowed(EmptyDisk, ops)
    requires PreCommitManifest(Run(EmptyDisk, ops)) && !Pending(Run(EmptyDisk, ops))
    ensures c < |ops| && EventOf(At(EmptyDisk, ops, c), ops[c]) == Discard
    ensures Pending(At(EmptyDisk, ops, c)) && At(EmptyDisk, ops, c).manifest == Run(EmptyDisk, ops).manifest
  {
    var n := |ops| - 1;
    var before := Run(EmptyDisk, ops[..n]);
    LastStep(ops);
    if Pending(before) {
      c := n;
      PendingEndsByCommit(before, ops[n]);
    } else {
      c := MismatchedManifestWasCommitted(ops[..n]);
      assert ops[..n][..c] == ops[..c];
    }
  }

  function StagedData(d: Disk): DataFile {
    if d.staging.Some? && d.staging.value.data.Some? then d.staging.value.data.value else EmptyData
  }

  function StagedEmails(d: Disk): EmailDir {
    if d.staging.Some? && d.staging.value.emails.Some? then d.staging.value.emails.value else map[]
  }

  lemma LastStep(ops: seq<Op>)
    requires AllAllowed(EmptyDisk, ops) && ops != []
    ensures var before := Run(EmptyDisk, ops[..|ops| - 1]);
      Inv(before) && Allowed(before, ops[|ops| - 1]) && Run(EmptyDisk, ops) == Apply(before, ops[|ops| - 1])
  {
    RunKeepsInv(EmptyDisk, ops, |ops| - 1);
  }

  /** No email is written under an epoch other than the store's: every stored one belongs to a
      UIDVALIDITY the sentinel had recorded at some earlier moment. */
  lemma {:induction false} EmailsBelongToAnEpoch(ops: seq<Op>, i: nat, path: EmailPath) returns (k: nat)
    requires AllAllowed(EmptyDisk, ops) && i <= |ops|
    requires path in Live(At(EmptyDisk, ops, i)).emails
    ensures k <= i && UidValidityOf(At(EmptyDisk, ops, k)) == Some(path.uidValidity)
  {
    if i == 0 {
      assert false;
    } else {
      RunStep(EmptyDisk, ops, i - 1);
      RunRefines(EmptyDisk, ops, i - 1);
      if path in Live(At(EmptyDisk, ops, i - 1)).emails {
        k := EmailsBelongToAnEpoch(ops, i - 1, path);
      } else {
        k := i - 1;
      }
    }
  }

  /** Every removal of a manifest took effect before root files were made or a recovery declared. */
  ghost predicate ManifestsRemoved(d: Disk, ops: seq<Op>) {
    forall i :: 0 <= i < |ops| ==> Unstranding(At(d, ops, i), ops[i]) && Tidying(At(d, ops, i), ops[i])
  }

  lemma ManifestsRemovedSnoc(d: Disk, ops: seq<Op>, op: Op)
    ensures ManifestsRemoved(d, ops + [op]) <==>
            ManifestsRemoved(d, ops) && Unstranding(Run(d, ops), op) && Tidying(Run(d, ops), op)
  {
    var longer := ops + [op];
    assert forall i :: 0 <= i < |ops| ==> longer[..i] == ops[..i];
    assert longer[..|ops|] == ops && longer[|ops|] == op;
    if ManifestsRemoved(d, longer) {
      forall i | 0 <= i < |ops| ensures Unstranding(At(d, ops, i), ops[i]) && Tidying(At(d, ops, i), ops[i]) {
        assert longer[i] == ops[i];
      }
    }
  }

  /** Then a write-ahead manifest whose recovery is gone stands beside neither tlsrpt.json nor
      emails/, and a manifest beside a recovery always belongs to it. */
  lemma {:induction false} RunNeverStranded(d: Disk, ops: seq<Op>, i: nat)
    requires Inv(d) && AllAllowed(d, ops) && !Stranded(d) && Tidy(d) && ManifestsRemoved(d, ops) && i <= |ops|
    ensures !Stranded(At(d, ops, i)) && Tidy(At(d, ops, i))
  {
    if i > 0 {
      RunNeverStranded(d, ops, i - 1);
      RunKeepsInv(d, ops, i - 1);
      RunStep(d, ops, i - 1);
      StepKeepsUnstranded(At(d, ops, i - 1), ops[i - 1]);
      StepKeepsTidy(At(d, ops, i - 1), ops[i - 1]);
    }
  }

  /** A reset that has staged tlsrpt.json and not committed. After its first two operations no
      recovery is declared and `df` is live. */
  lemma ResetHasStaged(df: DataFile) returns (ops: seq<Op>)
    ensures AllAllowed(EmptyDisk, ops) && |ops| >= 2
    ensures At(EmptyDisk, ops, 2) == Disk(Some(df), None, Some(Sentinel(Some(1), None)), None, None)
    ensures Run(EmptyDisk, ops) == Disk(None, None, Some(Sentinel(Some(1), Some(Recovery(1, 2)))),
                                        Some(Manifest(2, ManifestWritten)), Some(Staging(Some(df), None)))
  {
    var d;
    ops, d := Extend(EmptyDisk, [], WriteSentinel(Sentinel(Some(1), None)));
    ops, d := Extend(EmptyDisk, ops, WriteData(df));
    ghost var before := ops;
    ops, d := Extend(EmptyDisk, ops, WriteSentinel(Sentinel(Some(1), Some(Recovery(1, 2)))));
    ops, d := Extend(EmptyDisk, ops, MakeStaging);
    ops, d := Extend(EmptyDisk, ops, WriteManifest(Manifest(2, ManifestWritten)));
    ops, d := Extend(EmptyDisk, ops, StageData);
    assert ops[..2] == before;
  }

  /** Without that fault assumption it can happen: a reset commits and crashes before its manifest
      says so, the removal of the manifest fails at the next open, and fetch saves a report.
      The next confirmed discard-old would then reset a store nobody asked to discard. */
  lemma StrandedIsReachable() returns (ops: seq<Op>, report: Report)
    ensures AllAllowed(EmptyDisk, ops) && Stranded(Run(EmptyDisk, ops))
    ensures Live(Run(EmptyDisk, ops)) == Content(DataFile([report], []), map[])
  {
    report := Report("r", Time(2026, 5, 0), []);
    var d;
    ops := ResetHasStaged(EmptyData);
    ops, d := Extend(EmptyDisk, ops, WriteSentinel(Sentinel(Some(2), None)));
    ops, d := Extend(EmptyDisk, ops, RemoveStagedData);
    ops, d := Extend(EmptyDisk, ops, RemoveStagingDir);
    ops, d := Extend(EmptyDisk, ops, WriteData(DataFile([report], [])));
  }
}
