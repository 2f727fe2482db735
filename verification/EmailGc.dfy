/** internal/store/emails.go: deleting old emails file by file, then the index, then the
    directories, so that a rerun heals whatever a crash or a failed removal left. */
module EmailGc {
  import opened Types

  /** The two levels of directory below emails/. */
  datatype Dir = EpochDir(uidValidity: uint32) | MonthDir(uidValidity: uint32, year: Year, month: Month)

  function MonthDirOf(p: EmailPath): Dir {
    MonthDir(p.uidValidity, p.year, p.month)
  }

  datatype GcResult = GcOk(deleted: nat) | GcFailures(deleted: nat, failed: seq<EmailPath>) | GcDied

  /** The entry stays: it is not old enough, or its file cannot be removed. */
  predicate Survives(e: IndexEntry, cutoff: Time, undeletable: set<EmailPath>) {
    !e.date.Before(cutoff) || PathOf(e) in undeletable
  }

  function Surviving(index: seq<IndexEntry>, cutoff: Time, undeletable: set<EmailPath>): seq<IndexEntry> {
    if index == [] then []
    else
      var last := index[|index| - 1];
      Surviving(index[..|index| - 1], cutoff, undeletable) + if Survives(last, cutoff, undeletable) then [last] else []
  }

  function Collected(index: seq<IndexEntry>, cutoff: Time, undeletable: set<EmailPath>): seq<IndexEntry> {
    if index == [] then []
    else
      var last := index[|index| - 1];
      Collected(index[..|index| - 1], cutoff, undeletable) + if Survives(last, cutoff, undeletable) then [] else [last]
  }

  /** The files the system refuses to remove, in index order. */
  function Refused(index: seq<IndexEntry>, cutoff: Time, undeletable: set<EmailPath>): seq<EmailPath> {
    if index == [] then []
    else
      var last := index[|index| - 1];
      Refused(index[..|index| - 1], cutoff, undeletable) +
      if last.date.Before(cutoff) && PathOf(last) in undeletable then [PathOf(last)] else []
  }

  function Outcome(deleted: nat, failed: seq<EmailPath>): GcResult {
    if failed == [] then GcOk(deleted) else GcFailures(deleted, failed)
  }

  function Paths(entries: seq<IndexEntry>): set<EmailPath> {
    set e | e in entries :: PathOf(e)
  }

  /** An indexed file that is still there is still indexed. */
  ghost predicate NoNewOrphan(files0: EmailDir, index0: seq<IndexEntry>, files: EmailDir, index: seq<IndexEntry>) {
    files.Keys <= files0.Keys && forall p :: p in files && p in Paths(index0) ==> p in Paths(index)
  }

  /** Every file has its directories. */
  ghost predicate Housed(files: EmailDir, dirs: set<Dir>) {
    && (forall p :: p in files ==> MonthDirOf(p) in dirs)
    && (forall d :: d in dirs && d.MonthDir? ==> EpochDir(d.uidValidity) in dirs)
  }

  predicate MonthEmpty(files: EmailDir, d: Dir) {
    forall p :: p in files ==> MonthDirOf(p) != d
  }

  predicate EpochEmpty(dirs: set<Dir>, uv: uint32) {
    forall d :: d in dirs ==> d.EpochDir? || d.uidValidity != uv
  }

  /** No directory of these entries is left empty, unless it cannot be listed or removed. */
  ghost predicate Swept(files: EmailDir, dirs: set<Dir>, entries: seq<IndexEntry>, stuckDirs: set<Dir>) {
    forall e :: e in entries ==>
      && (MonthDirOf(PathOf(e)) in dirs - stuckDirs ==> !MonthEmpty(files, MonthDirOf(PathOf(e))))
      && (EpochDir(e.uidValidity) in dirs - stuckDirs ==> !EpochEmpty(dirs, e.uidValidity))
  }

  /** Wherever a run stops: no file without an index entry is new, only due files are gone, none has changed, and
      the index is the old one or, once all due files are gone, the final one. */
  ghost predicate StoppedAnywhere(cutoff: Time, undeletable: set<EmailPath>, files0: EmailDir, index0: seq<IndexEntry>,
                                  files: EmailDir, index: seq<IndexEntry>) {
    && NoNewOrphan(files0, index0, files, index)
    && (forall p :: p in files ==> files[p] == files0[p])
    && (!cutoff.IsZero() ==> files0.Keys - files.Keys <= Paths(Collected(index0, cutoff, undeletable)))
    && (index == index0
        || (index == Surviving(index0, cutoff, undeletable)
            && files.Keys == files0.Keys - Paths(Collected(index0, cutoff, undeletable))))
  }

  ghost predicate Finished(cutoff: Time, undeletable: set<EmailPath>, files0: EmailDir, index0: seq<IndexEntry>,
                           files: EmailDir, index: seq<IndexEntry>, r: GcResult) {
    && index == Surviving(index0, cutoff, undeletable)
    && files.Keys == files0.Keys - Paths(Collected(index0, cutoff, undeletable))
    && r == Outcome(|Collected(index0, cutoff, undeletable)|, Refused(index0, cutoff, undeletable))
  }

  class EmailStore {
    var files: EmailDir
    var dirs: set<Dir>
    var index: seq<IndexEntry>
    /** Files the system refuses to remove. */
    var stuck: set<EmailPath>
    /** Directories the system refuses to list or remove. That is logged and nothing else. */
    var stuckDirs: set<Dir>
    var steady: bool

    constructor (files: EmailDir, dirs: set<Dir>, index: seq<IndexEntry>)
      ensures this.files == files && this.dirs == dirs && this.index == index
      ensures stuck == {} && stuckDirs == {} && steady
    {
      this.files, this.dirs, this.index, stuck, stuckDirs, steady := files, dirs, index, {}, {}, true;
    }

    function Undeletable(): set<EmailPath>
      reads this
    {
      stuck * files.Keys
    }

    method CountEmailsBefore(cutoff: Time) returns (count: nat)
      ensures count == if cutoff.IsZero() then 0 else |Collected(index, cutoff, {})|
      ensures !cutoff.IsZero() ==>
                count == |set i | 0 <= i < |index| && (12 * index[i].date.year + index[i].date.month < 12 * cutoff.year + cutoff.month
                                                       || (index[i].date.year == cutoff.year && index[i].date.month == cutoff.month
                                                           && index[i].date.rest < cutoff.rest))|
    {
      DueCount(index, cutoff);
      count := 0;
      if cutoff.IsZero() {
        return;
      }
      for i := 0 to |index|
        invariant count == |Collected(index[..i], cutoff, {})|
      {
        assert index[..i + 1][..i] == index[..i];
        if index[i].date.Before(cutoff) {
          count := count + 1;
        }
      }
      assert index[..|index|] == index;
    }

    /** os.Remove of one .eml file: a missing file counts as removed. */
    method RemoveFile(path: EmailPath) returns (alive: bool, removed: bool)
      modifies `files
      ensures steady ==> alive
      ensures !alive ==> files == old(files)
      ensures alive ==> (removed <==> path !in old(Undeletable()))
      ensures alive ==> files == if removed then old(files) - {path} else old(files)
    {
      alive, removed := true, !(path in files && path in stuck);
      if removed {
        alive := MayDie(steady);
        if alive {
          files := files - {path};
        }
      }
    }

    /** The in-place filter over the shared backing array: file first, then the entry. */
    method FilterInPlace(entries: array<IndexEntry>, cutoff: Time)
      returns (alive: bool, w: nat, collected: seq<IndexEntry>, failed: seq<EmailPath>)
      modifies entries, `files
      ensures steady ==> alive
      ensures exists r: nat :: r <= entries.Length && files == old(files) - Paths(Collected(old(entries[..])[..r], cutoff, old(Undeletable())))
      ensures alive ==>
                && w <= entries.Length
                && entries[..w] == Surviving(old(entries[..]), cutoff, old(Undeletable()))
                && collected == Collected(old(entries[..]), cutoff, old(Undeletable()))
                && files == old(files) - Paths(collected)
                && failed == Refused(old(entries[..]), cutoff, old(Undeletable()))
    {
      w, collected, failed := 0, [], [];
      ghost var all, kept := entries[..], Undeletable();
      for r := 0 to entries.Length
        invariant w <= r
        invariant forall k :: r <= k < entries.Length ==> entries[k] == all[k]
        invariant entries[..w] == Surviving(all[..r], cutoff, kept)
        invariant collected == Collected(all[..r], cutoff, kept)
        invariant files == old(files) - Paths(collected)
        invariant stuck * files.Keys == kept
        invariant failed == Refused(all[..r], cutoff, kept)
      {
        var entry := entries[r];
        FilterSnoc(all, r, cutoff, kept);
        var keep := !entry.date.Before(cutoff);
        if !keep {
          var removed;
          alive, removed := RemoveFile(PathOf(entry));
          if !alive {
            return;
          }
          if removed {
            PathsSnoc(collected, entry);
            collected := collected + [entry];
          } else {
            failed := failed + [PathOf(entry)];
            keep := true;
          }
        }
        if keep {
          entries[w] := entry;
          w := w + 1;
          assert entries[..w] == entries[..w - 1] + [entry];
        }
      }
      assert all[..entries.Length] == all;
      alive := true;
    }

    /** Deletes the files, writes the index once, then tidies the directories. */
    method DeleteEmailsBefore(cutoff: Time) returns (r: GcResult)
      requires Housed(files, dirs)
      modifies `files, `dirs, `index
      ensures Housed(files, dirs)
      ensures steady ==> !r.GcDied?
      ensures cutoff.IsZero() ==> r == GcOk(0) && files == old(files) && index == old(index) && dirs == old(dirs)
      ensures StoppedAnywhere(cutoff, old(Undeletable()), old(files), old(index), files, index)
      ensures !cutoff.IsZero() && !r.GcDied? ==>
                Finished(cutoff, old(Undeletable()), old(files), old(index), files, index, r)
                && Swept(files, dirs, Collected(old(index), cutoff, old(Undeletable())), stuckDirs)
      // finished without faults, in dates: entry and file of earlier months go, those of later months stay
      ensures !cutoff.IsZero() && !r.GcDied? && old(stuck) == {} ==>
                && (forall e :: e in old(index) && 12 * e.date.year + e.date.month < 12 * cutoff.year + cutoff.month ==>
                      e !in index && EmailPath(e.uidValidity, e.date.year, e.date.month, e.uid) !in files)
                && (forall e :: e in old(index) && 12 * e.date.year + e.date.month > 12 * cutoff.year + cutoff.month ==>
                      && e in index
                      && var path := EmailPath(e.uidValidity, e.date.year, e.date.month, e.uid); path in old(files) ==> path in files)
                && (forall e :: e in old(index) && e.date.year == cutoff.year && e.date.month == cutoff.month ==>
                      (e in index <==> e.date.rest >= cutoff.rest))
    {
      if cutoff.IsZero() {
        return GcOk(0);
      }
      r := DeleteDue(cutoff);
      GoesByDate(old(index), cutoff);
      assert old(stuck) == {} ==> old(Undeletable()) == {};
    }

    method DeleteDue(cutoff: Time) returns (r: GcResult)
      requires Housed(files, dirs)
      modifies `files, `dirs, `index
      ensures Housed(files, dirs)
      ensures steady ==> !r.GcDied?
      ensures StoppedAnywhere(cutoff, old(Undeletable()), old(files), old(index), files, index)
      ensures !r.GcDied? ==>
                Finished(cutoff, old(Undeletable()), old(files), old(index), files, index, r)
                && Swept(files, dirs, Collected(old(index), cutoff, old(Undeletable())), stuckDirs)
    {
      var alive, surviving, collected, failed := CollectFiles(cutoff);
      if !alive {
        return GcDied;
      }
      if collected == [] {
        NothingCollected(index, cutoff, old(Undeletable()));
        return Outcome(0, failed);
      }
      alive := MayDie(steady);
      if !alive {
        return GcDied;
      }
      index := surviving;
      alive := CleanupEmptyDirs(collected);
      return if alive then Outcome(|collected|, failed) else GcDied;
    }

    /** Loads the index into an array and filters it in place. */
    method CollectFiles(cutoff: Time)
      returns (alive: bool, surviving: seq<IndexEntry>, collected: seq<IndexEntry>, failed: seq<EmailPath>)
      requires Housed(files, dirs)
      modifies `files
      ensures Housed(files, dirs)
      ensures steady ==> alive
      ensures files.Keys <= old(files).Keys && forall p :: p in files ==> files[p] == old(files)[p]
      ensures old(files).Keys - files.Keys <= Paths(Collected(index, cutoff, old(Undeletable())))
      ensures alive ==>
                && surviving == Surviving(index, cutoff, old(Undeletable()))
                && collected == Collected(index, cutoff, old(Undeletable()))
                && failed == Refused(index, cutoff, old(Undeletable()))
                && files.Keys == old(files).Keys - Paths(collected)
                && forall p :: p in files && p in Paths(index) ==> p in Paths(surviving)
    {
      var entries := new IndexEntry[|index|](i requires 0 <= i < |index| reads this => index[i]);
      assert entries[..] == index;
      var w;
      alive, w, collected, failed := FilterInPlace(entries, cutoff);
      ghost var r0: nat :| r0 <= |index| && files == old(files) - Paths(Collected(index[..r0], cutoff, old(Undeletable())));
      CollectedPrefix(index, r0, cutoff, old(Undeletable()));
      surviving := [];
      if !alive {
        return;
      }
      surviving := entries[..w];
      forall p | p in files && p in Paths(index)
        ensures p in Paths(Surviving(index, cutoff, old(Undeletable())))
      {
        KeptStayIndexed(index, cutoff, old(Undeletable()), p);
      }
    }

    /** Removes the month directories of collected emails that have become empty, then their epoch
        directories that have become empty. */
    method CleanupEmptyDirs(collected: seq<IndexEntry>) returns (alive: bool)
      requires Housed(files, dirs)
      modifies `dirs
      ensures Housed(files, dirs)
      ensures steady ==> alive
      ensures dirs <= old(dirs)
      ensures forall d :: d in old(dirs) - dirs && d.MonthDir? ==> MonthEmpty(files, d)
      ensures forall d :: d in old(dirs) - dirs && d.EpochDir? ==> EpochEmpty(dirs, d.uidValidity)
      ensures old(dirs) - dirs !! stuckDirs
      // a directory that went held no file, or no month, of its own
      ensures forall uv, y, m :: MonthDir(uv, y, m) in old(dirs) - dirs ==>
                forall p :: p in files ==> p.uidValidity != uv || p.year != y || p.month != m
      ensures forall uv :: EpochDir(uv) in old(dirs) - dirs ==>
                forall d :: d in dirs && d.MonthDir? ==> d.uidValidity != uv
      ensures alive ==> Swept(files, dirs, collected, stuckDirs)
    {
      var months := set e | e in collected :: MonthDirOf(PathOf(e));
      while months != {}
        invariant Housed(files, dirs) && dirs <= old(dirs)
        invariant forall d :: d in old(dirs) - dirs ==> d.MonthDir? && MonthEmpty(files, d) && d !in stuckDirs
        invariant forall d :: d in months ==> d.MonthDir?
        invariant forall e :: e in collected && MonthDirOf(PathOf(e)) in dirs - stuckDirs ==>
                    MonthDirOf(PathOf(e)) in months || !MonthEmpty(files, MonthDirOf(PathOf(e)))
        decreases |months|
      {
        var d :| d in months;
        if d in dirs && MonthEmpty(files, d) && d !in stuckDirs {
          alive := MayDie(steady);
          if !alive {
            return;
          }
          dirs := dirs - {d};
        }
        months := months - {d};
      }
      alive := CleanupEpochs(set e | e in collected :: e.uidValidity);
      assert forall e :: e in collected ==> MonthDirOf(PathOf(e)).MonthDir?;
    }

    method CleanupEpochs(uvs: set<uint32>) returns (alive: bool)
      requires Housed(files, dirs)
      modifies `dirs
      ensures Housed(files, dirs)
      ensures steady ==> alive
      ensures dirs <= old(dirs)
      ensures forall d :: d in old(dirs) - dirs ==> d.EpochDir? && EpochEmpty(dirs, d.uidValidity) && d !in stuckDirs
      ensures alive ==> forall uv :: uv in uvs && EpochDir(uv) in dirs - stuckDirs ==> !EpochEmpty(dirs, uv)
      ensures forall d :: d in old(dirs) && d.MonthDir? ==> d in dirs
    {
      var left := uvs;
      while left != {}
        invariant Housed(files, dirs) && dirs <= old(dirs) && left <= uvs
        invariant forall d :: d in old(dirs) - dirs ==> d.EpochDir? && EpochEmpty(dirs, d.uidValidity) && d !in stuckDirs
        invariant forall uv :: uv in uvs - left && EpochDir(uv) in dirs - stuckDirs ==> !EpochEmpty(dirs, uv)
        invariant forall d :: d in old(dirs) && d.MonthDir? ==> d in dirs
        decreases |left|
      {
        var uv :| uv in left;
        if EpochDir(uv) in dirs && EpochEmpty(dirs, uv) && EpochDir(uv) !in stuckDirs {
          alive := MayDie(steady);
          if !alive {
            return;
          }
          dirs := dirs - {EpochDir(uv)};
        }
        left := left - {uv};
      }
      alive := true;
    }

    /** However many gc runs crash or meet files they cannot remove, one run without faults reaches the
        result of a single uninterrupted run. */
    method GcHeals(cutoff: Time, failures: nat) returns (r: GcResult)
      requires Housed(files, dirs) && !cutoff.IsZero()
      modifies this
      ensures Housed(files, dirs)
      ensures index == Surviving(old(index), cutoff, {})
      ensures files.Keys == old(files).Keys - Paths(Collected(old(index), cutoff, {}))
      ensures forall p :: p in files ==> files[p] == old(files)[p]
      ensures NoNewOrphan(old(files), old(index), files, index)
    {
      for i := 0 to failures
        invariant Housed(files, dirs)
        invariant Surviving(index, cutoff, {}) == Surviving(old(index), cutoff, {})
        invariant files.Keys - Paths(Collected(index, cutoff, {})) == old(files).Keys - Paths(Collected(old(index), cutoff, {}))
        invariant forall p :: p in files ==> p in old(files) && files[p] == old(files)[p]
        invariant NoNewOrphan(old(files), old(index), files, index)
      {
        steady, stuck, stuckDirs := *, *, *;
        label before:
        ghost var kept := Undeletable();
        r := DeleteEmailsBefore(cutoff);
        PartialRunHeals(old@before(index), cutoff, kept, old@before(files).Keys, files.Keys, index);
      }
      steady, stuck, stuckDirs := true, {}, *;
      assert Undeletable() == {};
      r := DeleteEmailsBefore(cutoff);
    }
  }

  // ---- the filter ----

  lemma FilterSnoc(index: seq<IndexEntry>, r: nat, cutoff: Time, kept: set<EmailPath>)
    requires r < |index|
    ensures Surviving(index[..r + 1], cutoff, kept) ==
            Surviving(index[..r], cutoff, kept) + if Survives(index[r], cutoff, kept) then [index[r]] else []
    ensures Collected(index[..r + 1], cutoff, kept) ==
            Collected(index[..r], cutoff, kept) + if Survives(index[r], cutoff, kept) then [] else [index[r]]
    ensures Refused(index[..r + 1], cutoff, kept) ==
            Refused(index[..r], cutoff, kept) +
            if index[r].date.Before(cutoff) && PathOf(index[r]) in kept then [PathOf(index[r])] else []
  {
    assert index[..r + 1][..r] == index[..r];
  }

  lemma PathsSnoc(entries: seq<IndexEntry>, e: IndexEntry)
    ensures Paths(entries + [e]) == Paths(entries) + {PathOf(e)}
  {
    assert forall x :: x in entries + [e] <==> x in entries || x == e;
  }

  lemma {:induction false} CollectedPrefix(index: seq<IndexEntry>, r: nat, cutoff: Time, kept: set<EmailPath>)
    requires r <= |index|
    ensures Paths(Collected(index[..r], cutoff, kept)) <= Paths(Collected(index, cutoff, kept))
    decreases |index| - r
  {
    if r == |index| {
      assert index[..r] == index;
    } else {
      CollectedPrefix(index, r + 1, cutoff, kept);
      assert index[..r + 1][..r] == index[..r];
    }
  }

  lemma CountSnoc(entries: seq<IndexEntry>, e: IndexEntry)
    ensures multiset(entries + [e]) == multiset(entries) + multiset{e}
  {
  }

  /** A stable partition: both parts keep the order, and together they are all entries. */
  lemma {:induction false} FilterSplits(index: seq<IndexEntry>, cutoff: Time, kept: set<EmailPath>)
    ensures multiset(index) == multiset(Surviving(index, cutoff, kept)) + multiset(Collected(index, cutoff, kept))
  {
    if index != [] {
      var init, last := index[..|index| - 1], index[|index| - 1];
      FilterSplits(init, cutoff, kept);
      CountSnoc(init, last);
      CountSnoc(Surviving(init, cutoff, kept), last);
      CountSnoc(Collected(init, cutoff, kept), last);
      Last(index);
      FilterLast(index, cutoff, kept);
    }
  }

  lemma Last(index: seq<IndexEntry>)
    requires index != []
    ensures index[..|index| - 1] + [index[|index| - 1]] == index
  {
  }

  lemma FilterLast(index: seq<IndexEntry>, cutoff: Time, kept: set<EmailPath>)
    requires index != []
    ensures var init, last := index[..|index| - 1], index[|index| - 1];
      var s, c := Surviving(init, cutoff, kept), Collected(init, cutoff, kept);
      if Survives(last, cutoff, kept)
      then Surviving(index, cutoff, kept) == s + [last] && Collected(index, cutoff, kept) == c
      else Surviving(index, cutoff, kept) == s && Collected(index, cutoff, kept) == c + [last]
  {
  }

  lemma {:induction false} NothingCollected(index: seq<IndexEntry>, cutoff: Time, kept: set<EmailPath>)
    requires Collected(index, cutoff, kept) == []
    ensures Surviving(index, cutoff, kept) == index
  {
    if index != [] {
      NothingCollected(index[..|index| - 1], cutoff, kept);
    }
  }

  /** Which entries each part holds. */
  lemma {:induction false} FilterMembers(index: seq<IndexEntry>, cutoff: Time, kept: set<EmailPath>, e: IndexEntry)
    ensures e in Surviving(index, cutoff, kept) <==> e in index && Survives(e, cutoff, kept)
    ensures e in Collected(index, cutoff, kept) <==> e in index && !Survives(e, cutoff, kept)
  {
    if index != [] {
      FilterMembers(index[..|index| - 1], cutoff, kept, e);
    }
  }

  /** The failure list names exactly the files that were due and could not be removed. */
  lemma {:induction false} RefusedAre(index: seq<IndexEntry>, cutoff: Time, kept: set<EmailPath>, p: EmailPath)
    ensures p in Refused(index, cutoff, kept) <==> p in kept && p in Paths(Collected(index, cutoff, {}))
  {
    if index != [] {
      var n := |index| - 1;
      RefusedAre(index[..n], cutoff, kept, p);
      FilterSnoc(index, n, cutoff, {});
      PathsSnoc(Collected(index[..n], cutoff, {}), index[n]);
      assert index[..n + 1] == index;
    }
  }

  lemma DueCount(index: seq<IndexEntry>, cutoff: Time)
    ensures |Collected(index, cutoff, {})| ==
            |set i | 0 <= i < |index| && (12 * index[i].date.year + index[i].date.month < 12 * cutoff.year + cutoff.month
                                          || (index[i].date.year == cutoff.year && index[i].date.month == cutoff.month
                                              && index[i].date.rest < cutoff.rest))|
  {
    CollectedCount(index, cutoff);
    assert (set i | 0 <= i < |index| && (12 * index[i].date.year + index[i].date.month < 12 * cutoff.year + cutoff.month
                                         || (index[i].date.year == cutoff.year && index[i].date.month == cutoff.month
                                             && index[i].date.rest < cutoff.rest)))
        == DuePositions(index, cutoff);
  }

  function DuePositions(index: seq<IndexEntry>, cutoff: Time): set<int> {
    set i | 0 <= i < |index| && index[i].date.Before(cutoff)
  }

  lemma {:induction false} CollectedCount(index: seq<IndexEntry>, cutoff: Time)
    ensures |Collected(index, cutoff, {})| == |DuePositions(index, cutoff)|
  {
    if index != [] {
      var n := |index| - 1;
      CollectedCount(index[..n], cutoff);
      DueSnoc(index, cutoff);
    }
  }

  lemma DueSnoc(index: seq<IndexEntry>, cutoff: Time)
    requires index != []
    ensures var n := |index| - 1;
      && n !in DuePositions(index[..n], cutoff)
      && DuePositions(index, cutoff) == DuePositions(index[..n], cutoff) + if index[n].date.Before(cutoff) then {n} else {}
  {
  }

  /** In dates: earlier months are collected, later months are not, and the cutoff's own month is split. */
  lemma GoesByDate(index: seq<IndexEntry>, cutoff: Time)
    ensures forall e :: e in index && 12 * e.date.year + e.date.month < 12 * cutoff.year + cutoff.month ==>
              e !in Surviving(index, cutoff, {})
              && EmailPath(e.uidValidity, e.date.year, e.date.month, e.uid) in Paths(Collected(index, cutoff, {}))
    ensures forall e :: e in index && 12 * e.date.year + e.date.month > 12 * cutoff.year + cutoff.month ==>
              e in Surviving(index, cutoff, {})
              && EmailPath(e.uidValidity, e.date.year, e.date.month, e.uid) !in Paths(Collected(index, cutoff, {}))
    ensures forall e :: e in index && e.date.year == cutoff.year && e.date.month == cutoff.month ==>
              (e in Surviving(index, cutoff, {}) <==> e.date.rest >= cutoff.rest)
  {
    forall e | e in index
      ensures e in Surviving(index, cutoff, {}) <==> !e.date.Before(cutoff)
      ensures PathOf(e) in Paths(Collected(index, cutoff, {})) <==>
              exists e' :: e' in index && e'.date.Before(cutoff) && PathOf(e') == PathOf(e)
    {
      FilterMembers(index, cutoff, {}, e);
      InCollected(index, cutoff, {}, PathOf(e));
    }
  }

  lemma InCollected(index: seq<IndexEntry>, cutoff: Time, kept: set<EmailPath>, p: EmailPath)
    ensures p in Paths(Collected(index, cutoff, kept)) <==>
            exists e :: e in index && !Survives(e, cutoff, kept) && PathOf(e) == p
  {
    if p in Paths(Collected(index, cutoff, kept)) {
      var e :| e in Collected(index, cutoff, kept) && PathOf(e) == p;
      FilterMembers(index, cutoff, kept, e);
    }
    if e :| e in index && !Survives(e, cutoff, kept) && PathOf(e) == p {
      FilterMembers(index, cutoff, kept, e);
    }
  }

  /** What a first run collects and what a later run collects of the rest is what one run collects. */
  lemma CollectedTwice(index: seq<IndexEntry>, cutoff: Time, kept: set<EmailPath>)
    ensures Paths(Collected(index, cutoff, {})) ==
            Paths(Collected(index, cutoff, kept)) + Paths(Collected(Surviving(index, cutoff, kept), cutoff, {}))
  {
    var rest := Surviving(index, cutoff, kept);
    forall p ensures p in Paths(Collected(index, cutoff, {})) <==>
                     p in Paths(Collected(index, cutoff, kept)) || p in Paths(Collected(rest, cutoff, {}))
    {
      InCollected(index, cutoff, {}, p);
      InCollected(index, cutoff, kept, p);
      InCollected(rest, cutoff, {}, p);
      if e :| e in rest && !Survives(e, cutoff, {}) && PathOf(e) == p {
        FilterMembers(index, cutoff, kept, e);
      }
      if e :| e in index && !Survives(e, cutoff, {}) && PathOf(e) == p {
        FilterMembers(index, cutoff, kept, e);
      }
    }
  }

  /** Order is kept: if two entries survive, they stand in the result as they stood before. */
  lemma {:induction false} SurvivingKeepsOrder(index: seq<IndexEntry>, cutoff: Time, kept: set<EmailPath>, i: nat)
    returns (j: nat)
    requires i < |index| && Survives(index[i], cutoff, kept)
    ensures j == |Surviving(index[..i], cutoff, kept)| < |Surviving(index, cutoff, kept)|
    ensures Surviving(index, cutoff, kept)[j] == index[i]
  {
    var n := |index| - 1;
    if i < n {
      j := SurvivingKeepsOrder(index[..n], cutoff, kept, i);
      assert index[..n][..i] == index[..i];
    } else {
      j := |Surviving(index[..n], cutoff, kept)|;
    }
  }

  /** Entries that could not be collected are collected by a later run. */
  lemma {:induction false} SurvivingTwice(index: seq<IndexEntry>, cutoff: Time, kept: set<EmailPath>)
    ensures Surviving(Surviving(index, cutoff, kept), cutoff, {}) == Surviving(index, cutoff, {})
  {
    if index != [] {
      var init, last := index[..|index| - 1], index[|index| - 1];
      SurvivingTwice(init, cutoff, kept);
      var s := Surviving(init, cutoff, kept);
      if Survives(last, cutoff, kept) {
        assert (s + [last])[..|s|] == s;
      } else {
        assert s + [] == s;
      }
    }
  }

  lemma PartialRunHeals(index0: seq<IndexEntry>, cutoff: Time, kept: set<EmailPath>, files0: set<EmailPath>,
                        files: set<EmailPath>, index: seq<IndexEntry>)
    requires kept <= files0 && files <= files0
    requires files0 - files <= Paths(Collected(index0, cutoff, kept))
    requires index == index0 || (index == Surviving(index0, cutoff, kept) && files == files0 - Paths(Collected(index0, cutoff, kept)))
    ensures Surviving(index, cutoff, {}) == Surviving(index0, cutoff, {})
    ensures files - Paths(Collected(index, cutoff, {})) == files0 - Paths(Collected(index0, cutoff, {}))
  {
    CollectedTwice(index0, cutoff, kept);
    SurvivingTwice(index0, cutoff, kept);
  }

  /** An entry whose file is still there has not been collected. */
  lemma KeptStayIndexed(index: seq<IndexEntry>, cutoff: Time, kept: set<EmailPath>, p: EmailPath)
    requires p in Paths(index) && p !in Paths(Collected(index, cutoff, kept))
    ensures p in Paths(Surviving(index, cutoff, kept))
  {
    var e :| e in index && PathOf(e) == p;
    FilterMembers(index, cutoff, kept, e);
  }

  /** Without faults, gc deletes as many entries as the dry run counts. */
  method CountMatchesDelete(s: EmailStore, cutoff: Time) returns (count: nat, r: GcResult)
    requires Housed(s.files, s.dirs) && s.steady && s.stuck == {}
    modifies s
    ensures r == GcOk(count)
  {
    count := s.CountEmailsBefore(cutoff);
    assert s.Undeletable() == {};
    if Refused(s.index, cutoff, {}) != [] {
      RefusedAre(s.index, cutoff, {}, Refused(s.index, cutoff, {})[0]);
    }
    r := s.DeleteEmailsBefore(cutoff);
  }
}
