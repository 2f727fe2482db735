/** The store directory as the reset protocol sees it: four kinds of file, the atomic file
    operations on them, what an operation may do at each moment, and the abstract store
    those operations implement. */
module Disk {
  import opened Types

  datatype Recovery = Recovery(prev: uint32, curr: uint32)

  datatype Sentinel = Sentinel(uidValidity: Option<uint32>, recovery: Option<Recovery>)

  const FreshSentinel := Sentinel(None, None)

  /** resetPhaseManifestWritten = 1, resetPhaseCommitted = 4. */
  datatype Phase = ManifestWritten | Committed

  datatype Manifest = Manifest(curr: uint32, phase: Phase)

  /** The staging directory and what has been moved into it. */
  datatype Staging = Staging(data: Option<DataFile>, emails: Option<EmailDir>)

  const EmptyStaging := Staging(None, None)

  /** tlsrpt.json, emails/, the sentinel, the reset manifest and the staging directory. */
  datatype Disk = Disk(
    data: Option<DataFile>,
    emails: Option<EmailDir>,
    sentinel: Option<Sentinel>,
    manifest: Option<Manifest>,
    staging: Option<Staging>)

  const EmptyDisk := Disk(None, None, None, None, None)

  function SentinelOf(d: Disk): Sentinel {
    if d.sentinel.Some? then d.sentinel.value else FreshSentinel
  }

  function RecoveryOf(d: Disk): Option<Recovery> {
    SentinelOf(d).recovery
  }

  function UidValidityOf(d: Disk): Option<uint32> {
    SentinelOf(d).uidValidity
  }

  predicate PreCommitManifest(d: Disk) {
    d.manifest.Some? && d.manifest.value.phase == ManifestWritten
  }

  /** A discard-old reset is under way: its write-ahead manifest names the recovery the
      sentinel still records. Only then does the staging directory hold live data. */
  predicate Pending(d: Disk) {
    PreCommitManifest(d) && RecoveryOf(d).Some? && d.manifest.value.curr == RecoveryOf(d).value.curr
  }

  // ---- atomic file operations ----

  datatype Op =
    | RemoveStagedEmail(path: EmailPath)
    | RemoveStagedEmailsDir
    | RemoveStagedData
    | RemoveStagingDir
    | MakeStaging
    | WriteManifest(manifest: Manifest)
    | RemoveManifest
    | StageData
    | StageEmails
    | WriteSentinel(sentinel: Sentinel)
    | MakeEmailsDir
    | WriteData(data: DataFile)
    | WriteEmail(path: EmailPath, mail: Mail)
    | RemoveEmail(path: EmailPath)

  /** What the file system does. A removal of a missing piece, a mkdir of an existing
      directory and a rename that the system refuses leave the disk as it is; a rename
      of a file replaces the target, a rename of a directory needs it absent or empty. */
  function Apply(d: Disk, op: Op): Disk {
    match op
    case RemoveStagedEmail(path) =>
      if d.staging.Some? && d.staging.value.emails.Some? then
        d.(staging := Some(d.staging.value.(emails := Some(d.staging.value.emails.value - {path}))))
      else d
    case RemoveStagedEmailsDir =>
      if d.staging.Some? && d.staging.value.emails == Some(map[]) then
        d.(staging := Some(d.staging.value.(emails := None)))
      else d
    case RemoveStagedData =>
      if d.staging.Some? then d.(staging := Some(d.staging.value.(data := None))) else d
    case RemoveStagingDir =>
      if d.staging == Some(EmptyStaging) then d.(staging := None) else d
    case MakeStaging =>
      if d.staging.None? then d.(staging := Some(EmptyStaging)) else d
    case WriteManifest(m) => d.(manifest := Some(m))
    case RemoveManifest => d.(manifest := None)
    case StageData =>
      if d.data.Some? && d.staging.Some? then
        d.(data := None, staging := Some(d.staging.value.(data := d.data)))
      else d
    case StageEmails =>
      if d.emails.Some? && CanTakeEmails(d) then
        d.(emails := None, staging := Some(d.staging.value.(emails := d.emails)))
      else d
    case WriteSentinel(s) => d.(sentinel := Some(s))
    case MakeEmailsDir => if d.emails.None? then d.(emails := Some(map[])) else d
    case WriteData(df) => d.(data := Some(df))
    case WriteEmail(path, mail) => d.(emails := Some(RootEmails(d)[path := mail]))
    case RemoveEmail(path) => if d.emails.Some? then d.(emails := Some(d.emails.value - {path})) else d
  }

  /** The emails/ rename succeeds: its target is absent or an empty directory. */
  predicate CanTakeEmails(d: Disk) {
    d.staging.Some? && (d.staging.value.emails.None? || d.staging.value.emails == Some(map[]))
  }

  function RootEmails(d: Disk): EmailDir {
    if d.emails.Some? then d.emails.value else map[]
  }

  function RootData(d: Disk): DataFile {
    if d.data.Some? then d.data.value else EmptyData
  }

  // ---- the abstract store ----

  /** What a user of the store has: a missing file counts as an empty one. */
  datatype Content = Content(data: DataFile, emails: EmailDir)

  const NoContent := Content(EmptyData, map[])

  datatype Store = Store(uidValidity: Option<uint32>, recovery: Option<Recovery>, content: Content)

  /** The content that is not yet discarded, wherever the reset has put it. */
  function Live(d: Disk): Content {
    Content(
      if d.data.None? && Pending(d) && d.staging.Some? && d.staging.value.data.Some? then d.staging.value.data.value
      else RootData(d),
      if d.emails.None? && Pending(d) && d.staging.Some? && d.staging.value.emails.Some? then d.staging.value.emails.value
      else RootEmails(d))
  }

  function Abs(d: Disk): Store {
    Store(UidValidityOf(d), RecoveryOf(d), Live(d))
  }

  /** The steps of the abstract store. Each is one indivisible change. */
  datatype Event = Silent | FirstUidValidity(v: uint32) | Declare(curr: uint32) | KeepOld | Discard | Write

  function Kept(a: Store): Store
    requires a.recovery.Some?
  {
    Store(Some(a.recovery.value.curr), None, a.content)
  }

  function Discarded(a: Store): Store
    requires a.recovery.Some?
  {
    Store(Some(a.recovery.value.curr), None, NoContent)
  }

  ghost predicate AbsNext(a: Store, e: Event, a': Store) {
    match e
    case Silent => a' == a
    case FirstUidValidity(v) => a.recovery.None? && a.uidValidity.None? && a' == a.(uidValidity := Some(v))
    case Declare(curr) =>
      && a.recovery.None? && a.uidValidity.Some? && a.uidValidity.value != curr
      && a' == a.(recovery := Some(Recovery(a.uidValidity.value, curr)))
    case KeepOld => a.recovery.Some? && a' == Kept(a)
    case Discard => a.recovery.Some? && a' == Discarded(a)
    case Write => a.recovery.None? && a' == a.(content := a'.content)
  }

  /** The abstract step an operation takes, read off the disk before it. */
  function EventOf(d: Disk, op: Op): Event {
    match op
    case WriteSentinel(s) =>
      if s == SentinelOf(d) then Silent
      else if RecoveryOf(d).None? then
        if s.recovery.Some? then Declare(s.recovery.value.curr)
        else FirstUidValidity(if s.uidValidity.Some? then s.uidValidity.value else 0)
      else if Pending(d) then Discard
      else KeepOld
    case WriteData(_) => if RecoveryOf(d).None? then Write else Silent
    case WriteEmail(_, _) => Write
    case RemoveEmail(_) => Write
    case _ => Silent
  }

  // ---- the discipline ----

  /** When the protocol lets an operation happen. FileStore proves that every operation of
      every command meets it; ResetRuns proves what follows for every run. */
  ghost predicate Allowed(d: Disk, op: Op) {
    match op
    case RemoveStagedEmail(_) => !Pending(d)
    case RemoveStagedEmailsDir => !Pending(d)
    case RemoveStagedData => !Pending(d)
    case RemoveStagingDir => !Pending(d)
    case MakeStaging => true
    case WriteManifest(m) =>
      if m.phase == ManifestWritten
      then RecoveryOf(d).Some? && m.curr == RecoveryOf(d).value.curr && d.staging == Some(EmptyStaging)
      else RecoveryOf(d).None? && UidValidityOf(d) == Some(m.curr)
    case RemoveManifest => !Pending(d)
    case StageData =>
      PreCommitManifest(d) && d.data.Some? && d.staging.Some? && if Pending(d) then d.staging.value.data.None? else d.data.value == EmptyData
    case StageEmails =>
      PreCommitManifest(d) && d.emails.Some? && CanTakeEmails(d) && if Pending(d) then d.staging.value.emails.None? else d.emails.value == map[]
    case WriteSentinel(s) =>
      var was := SentinelOf(d);
      if was.recovery.None? then
        if s.recovery.None?
        then (s == FreshSentinel && d.sentinel.None?) || (s.uidValidity.Some? && (was.uidValidity.None? || s == was))
        else was.uidValidity.Some? && s == Sentinel(was.uidValidity, Some(Recovery(was.uidValidity.value, s.recovery.value.curr)))
             && s.recovery.value.curr != was.uidValidity.value
      else
        && s == Sentinel(Some(was.recovery.value.curr), None)
        && if Pending(d) then d.data.None? && d.emails.None? else !PreCommitManifest(d)
    case MakeEmailsDir => !Pending(d)
    case WriteData(df) => !Pending(d) && (RecoveryOf(d).None? || (d.data.None? && df == EmptyData))
    case WriteEmail(path, _) => RecoveryOf(d).None? && UidValidityOf(d) == Some(path.uidValidity)
    case RemoveEmail(_) => RecoveryOf(d).None?
  }

  // ---- invariants ----

  ghost predicate Inv(d: Disk) {
    // a manifest is only ever written beside a sentinel
    && (d.manifest.Some? ==> d.sentinel.Some?)
    // no rename meets a file that is already staged
    && (Pending(d) && d.staging.Some? ==> !(d.data.Some? && d.staging.value.data.Some?))
    && (Pending(d) && d.staging.Some? ==> !(d.emails.Some? && d.staging.value.emails.Some?))
    // a write-ahead manifest that outlived its recovery names the committed epoch
    && (PreCommitManifest(d) && RecoveryOf(d).None? ==> UidValidityOf(d) == Some(d.manifest.value.curr))
    // a recovery leads from the recorded epoch to another one
    && (RecoveryOf(d).Some? ==> UidValidityOf(d) == Some(RecoveryOf(d).value.prev))
    && (RecoveryOf(d).Some? ==> RecoveryOf(d).value.prev != RecoveryOf(d).value.curr)
  }

  /** A write-ahead manifest that outlived its recovery while root files came back. */
  predicate Stranded(d: Disk) {
    PreCommitManifest(d) && RecoveryOf(d).None? && (d.data.Some? || d.emails.Some?)
  }

  /** A manifest beside a recovery is the write-ahead manifest of that recovery's reset. */
  predicate Tidy(d: Disk) {
    d.manifest.Some? && RecoveryOf(d).Some? ==> Pending(d)
  }

  /** A recovery is declared only where no manifest is left over. */
  predicate Tidying(d: Disk, op: Op) {
    op.WriteSentinel? && RecoveryOf(d).None? && op.sentinel.recovery.Some? ==> d.manifest.None?
  }

  /** The operation does not put root files beside a write-ahead manifest that outlived its recovery. */
  predicate Unstranding(d: Disk, op: Op) {
    op.MakeEmailsDir? || op.WriteData? || op.WriteEmail? ==> !(PreCommitManifest(d) && RecoveryOf(d).None?)
  }

  lemma StepKeepsInv(d: Disk, op: Op)
    requires Inv(d) && Allowed(d, op)
    ensures Inv(Apply(d, op))
  {
  }

  /** Each atomic operation is one step of the abstract store, and most are silent. */
  lemma StepRefines(d: Disk, op: Op)
    requires Inv(d) && Allowed(d, op)
    ensures AbsNext(Abs(d), EventOf(d, op), Abs(Apply(d, op)))
  {
  }

  lemma StepKeepsUnstranded(d: Disk, op: Op)
    requires Inv(d) && Allowed(d, op) && !Stranded(d) && Unstranding(d, op)
    ensures !Stranded(Apply(d, op))
  {
  }

  lemma StepKeepsTidy(d: Disk, op: Op)
    requires Inv(d) && Allowed(d, op) && Tidy(d) && Tidying(d, op)
    ensures Tidy(Apply(d, op))
  {
  }

  /** A pending reset ends with its commit and in no other way. */
  lemma PendingEndsByCommit(d: Disk, op: Op)
    requires Inv(d) && Allowed(d, op) && Pending(d) && !Pending(Apply(d, op))
    ensures EventOf(d, op) == Discard
  {
  }
}
