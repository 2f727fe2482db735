/** Writers and summaries at the same time. Writers exclude one another with the store lock;
    a summary takes only the shared guard, and the writes that change the recovery take that
    guard exclusively. Reset renames take no guard at all. */
module SummaryGuard {
  import opened Types
  import opened Disk
  import opened ResetRuns

  /** A summary between acquiring the shared guard and closing it. */
  datatype Reader = Holding | Checked(found: bool) | Aggregated(view: DataFile)

  datatype Sys = Sys(disk: Disk, storeLock: Option<nat>, exclusive: Option<nat>, readers: map<nat, Reader>)

  datatype Action =
    | TakeLock(p: nat)
    | Exit(p: nat)
    | TakeGuard(p: nat)
    | DropGuard(p: nat)
    | Write(p: nat, op: Op)
    | OpenGuard(r: nat)
    | Check(r: nat)
    | Aggregate(r: nat)
    | CloseGuard(r: nat)

  ghost predicate Enabled(s: Sys, a: Action) {
    match a
    case TakeLock(p) => s.storeLock.None?
    case Exit(p) => s.storeLock == Some(p)
    case TakeGuard(p) => s.storeLock == Some(p) && s.exclusive.None? && s.readers == map[]
    case DropGuard(p) => s.exclusive == Some(p)
    case Write(p, op) =>
      && s.storeLock == Some(p)
      && Allowed(s.disk, op) && Unstranding(s.disk, op) && Tidying(s.disk, op)
      && (WritesRecovery(s.disk, op) ==> s.exclusive == Some(p))
    case OpenGuard(r) => r !in s.readers && s.exclusive.None?
    case Check(r) => r in s.readers && s.readers[r] == Holding
    case Aggregate(r) => r in s.readers && s.readers[r] == Checked(false)
    case CloseGuard(r) => r in s.readers
  }

  /** An exit, orderly or by a crash, gives up both locks. */
  function Next(s: Sys, a: Action): Sys {
    match a
    case TakeLock(p) => s.(storeLock := Some(p))
    case Exit(p) => s.(storeLock := None, exclusive := if s.exclusive == Some(p) then None else s.exclusive)
    case TakeGuard(p) => s.(exclusive := Some(p))
    case DropGuard(p) => s.(exclusive := None)
    case Write(p, op) => s.(disk := Apply(s.disk, op))
    case OpenGuard(r) => s.(readers := s.readers[r := Holding])
    case Check(r) => s.(readers := s.readers[r := Checked(RecoveryOf(s.disk).Some?)])
    case Aggregate(r) => s.(readers := s.readers[r := Aggregated(RootData(s.disk))])
    case CloseGuard(r) => s.(readers := s.readers - {r})
  }

  function Exec(s: Sys, acts: seq<Action>): Sys {
    if acts == [] then s else Next(Exec(s, acts[..|acts| - 1]), acts[|acts| - 1])
  }

  ghost predicate AllEnabled(s: Sys, acts: seq<Action>) {
    acts == [] || (AllEnabled(s, acts[..|acts| - 1]) && Enabled(Exec(s, acts[..|acts| - 1]), acts[|acts| - 1]))
  }

  function After(s: Sys, acts: seq<Action>, i: nat): Sys
    requires i <= |acts|
  {
    Exec(s, acts[..i])
  }

  ghost predicate SysInv(s: Sys) {
    && Inv(s.disk) && !Stranded(s.disk) && Tidy(s.disk)
    // the guard is exclusive or shared, and only the holder of the store lock takes it exclusively
    && (s.exclusive.Some? ==> s.readers == map[] && s.storeLock == s.exclusive)
    // a summary that found no recovery still finds none
    && (forall r :: r in s.readers && !s.readers[r].Holding? && s.readers[r] != Checked(true) ==> RecoveryOf(s.disk).None?)
  }

  lemma ActionKeepsInv(s: Sys, a: Action)
    requires SysInv(s) && Enabled(s, a)
    ensures SysInv(Next(s, a))
    ensures a.Write? && s.readers != map[] ==> RecoveryOf(Next(s, a).disk) == RecoveryOf(s.disk)
  {
    if a.Write? {
      StepKeepsInv(s.disk, a.op);
      StepKeepsUnstranded(s.disk, a.op);
      StepKeepsTidy(s.disk, a.op);
    }
  }

  lemma {:induction false} ExecStep(s: Sys, acts: seq<Action>, i: nat)
    requires SysInv(s) && AllEnabled(s, acts) && i < |acts|
    ensures Enabled(After(s, acts, i), acts[i])
    ensures After(s, acts, i + 1) == Next(After(s, acts, i), acts[i])
  {
    var n := |acts| - 1;
    if i < n {
      ExecStep(s, acts[..n], i);
      assert acts[..n][..i] == acts[..i] && acts[..n][..i + 1] == acts[..i + 1];
    } else {
      assert acts[..n + 1] == acts && acts[..i + 1][..i] == acts[..i];
    }
  }

  lemma {:induction false} ExecKeepsInv(s: Sys, acts: seq<Action>, i: nat)
    requires SysInv(s) && AllEnabled(s, acts) && i <= |acts|
    ensures SysInv(After(s, acts, i))
  {
    if i > 0 {
      ExecKeepsInv(s, acts, i - 1);
      ExecStep(s, acts, i - 1);
      ActionKeepsInv(After(s, acts, i - 1), acts[i - 1]);
    }
  }

  ghost predicate GuardedThroughout(s: Sys, acts: seq<Action>, i: nat, j: nat, r: nat)
    requires i <= j <= |acts|
  {
    forall k :: i <= k <= j ==> r in After(s, acts, k).readers
  }

  /** From acquiring the shared guard to closing it the recovery is constant, under every interleaving. */
  lemma {:induction false} RecoveryConstantUnderGuard(s: Sys, acts: seq<Action>, i: nat, j: nat, r: nat)
    requires SysInv(s) && AllEnabled(s, acts) && i <= j <= |acts|
    requires GuardedThroughout(s, acts, i, j, r)
    ensures RecoveryOf(After(s, acts, j).disk) == RecoveryOf(After(s, acts, i).disk)
  {
    if i < j {
      RecoveryConstantUnderGuard(s, acts, i, j - 1, r);
      ExecKeepsInv(s, acts, j - 1);
      ExecStep(s, acts, j - 1);
      ActionKeepsInv(After(s, acts, j - 1), acts[j - 1]);
    }
  }

  /** Once a summary has found no recovery, until it closes the guard, no reset step changes
      tlsrpt.json: whatever changes it is a writer's own save. */
  lemma NoResetStepUnderSummary(s: Sys, acts: seq<Action>, i: nat, j: nat, r: nat)
    requires SysInv(s) && AllEnabled(s, acts) && i <= j < |acts|
    requires GuardedThroughout(s, acts, i, j, r)
    requires After(s, acts, i).readers[r] == Checked(false)
    requires After(s, acts, j + 1).disk.data != After(s, acts, j).disk.data
    ensures acts[j].Write? && acts[j].op.WriteData?
    ensures RecoveryOf(After(s, acts, j).disk).None?
  {
    RecoveryConstantUnderGuard(s, acts, i, j, r);
    ExecKeepsInv(s, acts, i);
    ExecKeepsInv(s, acts, j);
    ExecStep(s, acts, j);
  }

  /** What a summary aggregates is the live content of that moment, and no recovery is declared then
      nor at any later moment before it closes the guard. */
  lemma SummaryAggregatesLiveReports(s: Sys, acts: seq<Action>, i: nat, j: nat, r: nat)
    requires SysInv(s) && AllEnabled(s, acts) && i < j <= |acts|
    requires acts[i] == Aggregate(r) && GuardedThroughout(s, acts, i, j, r)
    ensures After(s, acts, i + 1).readers[r] == Aggregated(Live(After(s, acts, i).disk).data)
    ensures RecoveryOf(After(s, acts, j).disk).None?
  {
    ExecKeepsInv(s, acts, i);
    ExecStep(s, acts, i);
    RecoveryConstantUnderGuard(s, acts, i, j, r);
  }

  /** A summary can always go through when no recovery is recorded and no writer is changing one, and then
      aggregates the live reports. */
  lemma SummaryGoesThrough(s: Sys, r: nat)
    requires SysInv(s) && s.exclusive.None? && RecoveryOf(s.disk).None? && r !in s.readers
    ensures AllEnabled(s, [OpenGuard(r), Check(r), Aggregate(r), CloseGuard(r)])
    ensures r in Exec(s, [OpenGuard(r), Check(r), Aggregate(r)]).readers
    ensures Exec(s, [OpenGuard(r), Check(r), Aggregate(r)]).readers[r] == Aggregated(Live(s.disk).data)
    ensures Exec(s, [OpenGuard(r), Check(r), Aggregate(r), CloseGuard(r)]) == s
  {
    var two, three := [OpenGuard(r), Check(r)], [OpenGuard(r), Check(r), Aggregate(r)];
    SummaryChecks(s, r);
    ExecSnoc(s, two, Aggregate(r));
    ExecSnoc(s, three, CloseGuard(r));
    assert two + [Aggregate(r)] == three;
    assert three + [CloseGuard(r)] == [OpenGuard(r), Check(r), Aggregate(r), CloseGuard(r)];
    assert s.readers[r := Aggregated(RootData(s.disk))] - {r} == s.readers;
  }

  lemma SummaryChecks(s: Sys, r: nat)
    requires s.exclusive.None? && r !in s.readers
    ensures AllEnabled(s, [OpenGuard(r), Check(r)])
    ensures Exec(s, [OpenGuard(r), Check(r)]) == s.(readers := s.readers[r := Checked(RecoveryOf(s.disk).Some?)])
  {
    ExecSnoc(s, [], OpenGuard(r));
    ExecSnoc(s, [OpenGuard(r)], Check(r));
    assert [] + [OpenGuard(r)] == [OpenGuard(r)] && [OpenGuard(r)] + [Check(r)] == [OpenGuard(r), Check(r)];
    assert s.readers[r := Holding][r := Checked(RecoveryOf(s.disk).Some?)] == s.readers[r := Checked(RecoveryOf(s.disk).Some?)];
  }

  lemma ExecSnoc(s: Sys, acts: seq<Action>, a: Action)
    ensures Exec(s, acts + [a]) == Next(Exec(s, acts), a)
    ensures AllEnabled(s, acts + [a]) <==> AllEnabled(s, acts) && Enabled(Exec(s, acts), a)
  {
    assert (acts + [a])[..|acts|] == acts;
  }

  /** With a recovery recorded it finds it, and cannot aggregate. */
  lemma SummaryRefuses(s: Sys, r: nat)
    requires SysInv(s) && s.exclusive.None? && RecoveryOf(s.disk).Some? && r !in s.readers
    ensures AllEnabled(s, [OpenGuard(r), Check(r)])
    ensures !Enabled(Exec(s, [OpenGuard(r), Check(r)]), Aggregate(r))
  {
    SummaryChecks(s, r);
  }

  /** Two writers never interleave: between taking the store lock and exiting, every operation on
      the disk is the holder's. */
  lemma {:induction false} WritersExclude(s: Sys, acts: seq<Action>, i: nat, j: nat, p: nat)
    requires SysInv(s) && AllEnabled(s, acts) && i <= j < |acts|
    requires After(s, acts, i).storeLock == Some(p)
    requires forall k :: i <= k < j ==> acts[k] != Exit(p)
    requires acts[j].Write? || acts[j].TakeGuard?
    ensures acts[j].p == p && After(s, acts, j).storeLock == Some(p)
  {
    var k := i;
    while k < j
      invariant i <= k <= j && After(s, acts, k).storeLock == Some(p)
    {
      ExecStep(s, acts, k);
      k := k + 1;
    }
    ExecStep(s, acts, j);
  }

  /** The guard is needed: a summary that checked without holding it could find no recovery and then
      aggregate an empty tlsrpt.json while every report is still live in staging. */
  lemma UnguardedSummaryMisses(df: DataFile) returns (ops: seq<Op>, checkedAt: nat)
    ensures AllAllowed(EmptyDisk, ops) && checkedAt <= |ops|
    ensures RecoveryOf(At(EmptyDisk, ops, checkedAt)).None?
    ensures RootData(Run(EmptyDisk, ops)) == EmptyData
    ensures Live(Run(EmptyDisk, ops)).data == Live(At(EmptyDisk, ops, checkedAt)).data == df
  {
    ops := ResetHasStaged(df);
    checkedAt := 2;
  }
}
