/** The journalled self-update: staging, publishing, committing, and its recovery. */
module SelfUpdate {
  import opened Common
  import opened JournalModel
  import opened UpdateDirectory

  /** `Unsynced` is a journal that is in place although flushing the directory failed. */
  datatype Publication = Refused | Unsynced | Published

  /** Creates a temporary file, protects it and writes it.  On failure the file, perhaps torn,
      stays behind. */
  method Stage(d: Directory, role: Role, mode: Mode, content: Content) returns (path: Option<Name>, ok: bool)
    requires d.Valid() && Plain(mode)
    modifies d
    ensures d.Valid() && old(d.states) <= d.states && old(d.clock) <= d.clock
    ensures path.None? ==> !ok && d.files == old(d.files) && d.states == old(d.states)
    ensures path.Some? ==>
              && HasRole(path.value, role) && path.value !in old(d.files) && path.value in d.files
              && WithTemp(old(d.files), path.value, d.files)
              && AllWithTemp(old(d.files), path.value, old(d.states), d.states)
    ensures ok ==> path.Some? && d.files[path.value] == File(content, mode)
    ensures path.Some? ==> old(d.files)[path.value := File(Binary([]), PRIVATE_MODE)] in d.states
    ensures old(d.clock) !in d.faults ==> path.Some?
    ensures ok ==> d.clock == old(d.clock) + 3
    ensures d.Calm(old(d.clock)) || d.Clear(old(d.clock), old(d.clock) + 3) ==> ok
  {
    path := d.CreateTemp(role);
    if path.None? {
      return None, false;
    }
    ok := d.Chmod(path.value, mode);
    if ok {
      ok := d.Write(path.value, content);
    }
  }

  /** Copies a file to a new temporary file with the given mode; removes the copy if that fails. */
  method CloneToTemp(d: Directory, source: Name, role: Role, mode: Mode) returns (r: Option<Name>, ghost temp: Name)
    requires d.Valid() && Plain(mode)
    modifies d
    ensures d.Valid() && old(d.states) <= d.states && old(d.clock) <= d.clock
    ensures AllWithTemp(old(d.files), temp, old(d.states), d.states)
    ensures WithTemp(old(d.files), temp, d.files)
    ensures r.Some? ==>
              && source in old(d.files) && HasRole(r.value, role) && r.value !in old(d.files)
              && d.files == old(d.files)[r.value := File(old(d.files)[source].content, mode)]
    ensures r.Some? ==> d.clock == old(d.clock) + 6
    ensures d.Clear(old(d.clock), old(d.clock) + 6) && source in old(d.files) ==> r.Some?
    ensures d.Calm(old(d.clock)) && source in old(d.files) ==> r.Some?
    ensures d.Calm(old(d.clock)) && r.None? ==> d.files == old(d.files)
  {
    ghost var unused := FreshTemp(d.files, role);
    temp := Temp(role, unused);
    var input := d.Open(source);
    if !input.Found? {
      return None, temp;
    }
    var ok;
    r, ok := Stage(d, role, PRIVATE_MODE, input.file.content);
    if r.None? {
      return None, temp;
    }
    temp := r.value;
    if ok {
      ok := d.Chmod(r.value, mode);
    }
    if ok {
      ok := d.Sync();
    }
    if !ok {
      var _ := d.Remove(r.value);
      r := None;
    }
  }

  /** The operation of a publication that flushes the directory, counted from its first one. */
  const PUBLISH_FLUSH: nat := 5

  /** Writes a journal beside the current one and renames it into place. */
  method PublishTransaction(d: Directory, t: Transaction) returns (r: Publication, ghost temp: Name)
    requires d.Valid()
    modifies d
    ensures d.Valid() && old(d.states) <= d.states && old(d.clock) <= d.clock
    ensures HasRole(temp, TransactionRole)
    ensures r.Refused? ==>
              && AllWithTemp(old(d.files), temp, old(d.states), d.states)
              && WithTemp(old(d.files), temp, d.files)
    ensures !r.Refused? ==> d.files == WithJournal(old(d.files), t)
    ensures forall x <- d.states ::
              x in old(d.states) || WithTemp(old(d.files), temp, x) || x == WithJournal(old(d.files), t)
    ensures !r.Refused? ==> (r.Unsynced? <==> old(d.clock) + PUBLISH_FLUSH in d.faults)
    ensures d.Clear(old(d.clock), old(d.clock) + PUBLISH_FLUSH) ==> !r.Refused?
    ensures d.Calm(old(d.clock)) ==> r.Published?
  {
    ghost var unused := FreshTemp(d.files, TransactionRole);
    temp := Temp(TransactionRole, unused);
    var path, ok := Stage(d, TransactionRole, PRIVATE_MODE, Encoded(t));
    if path.None? {
      return Refused, temp;
    }
    temp := path.value;
    if ok {
      ok := d.Sync();
    }
    if ok {
      ok := d.Rename(path.value, Journal);
    }
    r := Refused;
    if ok {
      assert d.files == WithJournal(old(d.files), t);
      ok := d.Sync();
      r := if ok then Published else Unsynced;
    }
    var _ := d.Remove(path.value);
  }

  ghost predicate AllSettled(p: Installed, before: set<Files>, now: set<Files>) {
    forall x <- now :: x in before || Settled(x, p)
  }

  /** Removes one artifact of a committed update, unless it is gone already. */
  method RemoveArtifact(d: Directory, n: Name, ghost p: Installed) returns (ok: bool)
    requires d.Valid() && n.Temp? && Settled(d.files, p)
    modifies d
    ensures d.Valid() && old(d.states) <= d.states && old(d.clock) <= d.clock
    ensures AllSettled(p, old(d.states), d.states)
    ensures ok ==> d.files == old(d.files) - {n}
    ensures !ok ==> d.files == old(d.files)
    ensures d.Calm(old(d.clock)) && (n in old(d.files) ==> Plain(old(d.files)[n].mode)) ==> ok
  {
    SettledWithout(d.files, p, n);
    var found := d.Open(n);
    if found.Missing? {
      assert d.files - {n} == d.files;
      return true;
    }
    if found.Unreadable? || !Plain(found.file.mode) {
      return false;
    }
    ok := d.Remove(n);
  }

  function Artifacts(t: Transaction): seq<Name> {
    [t.backup, t.candidate, t.previousCandidate] + if t.previousBackup.Some? then [t.previousBackup.value] else []
  }

  lemma ArtifactsAreListed(t: Transaction)
    ensures forall n <- Listed(t) :: exists i :: 0 <= i < |Artifacts(t)| && Artifacts(t)[i] == n
  {
    var s := Artifacts(t);
    assert s[0] == t.backup && s[1] == t.candidate && s[2] == t.previousCandidate;
    assert t.previousBackup.Some? ==> s[3] == t.previousBackup.value;
  }

  /** Writes a committed journal again after its artifacts are gone. */
  method Republish(d: Directory, t: Transaction, ghost p: Installed)
    requires d.Valid() && Settled(d.files, p) && Journal !in d.files
    requires t.committed && RightRoles(t) && Listed(t) !! d.files.Keys
    modifies d
    ensures d.Valid() && old(d.states) <= d.states && old(d.clock) <= d.clock
    ensures AllSettled(p, old(d.states), d.states) && Settled(d.files, p)
  {
    ghost var base := d.files;
    var _, temp := PublishTransaction(d, t);
    assert Settled(WithJournal(base, t), p);
    forall x | x in d.states && WithTemp(base, temp, x)
      ensures Settled(x, p)
    {
      TempIsHarmless(base, temp, x);
    }
  }

  /** Removes what a committed journal lists and then the journal.  If the removal cannot be made
      durable, the journal is written again so that a later recovery repeats the cleanup. */
  method CleanupCommitted(d: Directory, t: Transaction) returns (ok: bool)
    requires d.Valid() && WellFormed(d.files) && HasJournal(d.files) && JournalOf(d.files) == t && t.committed
    modifies d
    ensures d.Valid() && old(d.states) <= d.states && old(d.clock) <= d.clock
    ensures AllSettled(Visible(old(d.files)), old(d.states), d.states)
    ensures Settled(d.files, Visible(old(d.files)))
    ensures ok ==> Journal !in d.files && Listed(t) !! d.files.Keys
    ensures ok ==> Beyond(old(d.files), Listed(t) + {Journal}, d.files)
    ensures d.Calm(old(d.clock)) ==> ok
  {
    ghost var p := Visible(d.files);
    var artifacts := Artifacts(t);
    for i := 0 to |artifacts|
      invariant d.Valid() && old(d.states) <= d.states && old(d.clock) <= d.clock
      invariant AllSettled(p, old(d.states), d.states) && Settled(d.files, p)
      invariant HasJournal(d.files) && JournalOf(d.files) == t
      invariant Beyond(old(d.files), Listed(t), d.files)
      invariant forall j :: 0 <= j < i ==> artifacts[j] !in d.files
    {
      ok := RemoveArtifact(d, artifacts[i], p);
      if !ok {
        return false;
      }
    }
    ArtifactsAreListed(t);
    assert Listed(t) !! d.files.Keys;
    ok := d.Sync();
    if !ok {
      return false;
    }
    SettledWithout(d.files, p, Journal);
    ok := d.Remove(Journal);
    if !ok {
      return false;
    }
    ok := d.Sync();
    if !ok {
      Republish(d, t, p);
    }
  }

  /** `UndoneUnsynced` is a rollback whose journal is committed but still on disk. */
  datatype Rollback = Undone | UndoneUnsynced | Stuck

  /** Copies a backup beside its target and renames the copy over it. */
  method Restore(d: Directory, source: Name, role: Role, mode: Mode, target: Name) returns (ok: bool, ghost temp: Name)
    requires d.Valid() && Plain(mode) && !target.Temp?
    modifies d
    ensures d.Valid() && old(d.states) <= d.states && old(d.clock) <= d.clock
    ensures ok ==> source in old(d.files) && d.files == old(d.files)[target := File(old(d.files)[source].content, mode)]
    ensures !ok ==> WithTemp(old(d.files), temp, d.files)
    ensures forall x <- d.states ::
              || x in old(d.states)
              || WithTemp(old(d.files), temp, x)
              || (source in old(d.files) && x == old(d.files)[target := File(old(d.files)[source].content, mode)])
    ensures ok ==> d.clock == old(d.clock) + 8
    ensures d.Calm(old(d.clock)) || d.Clear(old(d.clock), old(d.clock) + 8) ==> source !in old(d.files) || ok
  {
    var path;
    path, temp := CloneToTemp(d, source, role, mode);
    if path.None? {
      return false, temp;
    }
    temp := path.value;
    ok := d.Rename(path.value, target);
    if ok {
      assert d.files == old(d.files)[target := File(old(d.files)[source].content, mode)];
    }
    var _ := d.Remove(path.value);
  }

  ghost function Undoing(d: Files): set<File>
    requires WellFormed(d)
  {
    {d[Executable], Logical(d).executable}
  }

  /** Puts the executable back from its backup. */
  method RestoreExecutable(d: Directory, t: Transaction) returns (ok: bool)
    requires d.Valid() && WellFormed(d.files) && InProgress(d.files) && JournalOf(d.files) == t
    modifies d
    ensures d.Valid() && old(d.states) <= d.states && old(d.clock) <= d.clock
    ensures AllKeep(old(d.files), Undoing(old(d.files)), old(d.states), d.states)
    ensures Keeps(old(d.files), Undoing(old(d.files)), d.files)
    ensures InProgress(d.files) && JournalOf(d.files) == t
    ensures ok ==> d.files[Executable] == Logical(old(d.files)).executable
    ensures ok ==> Beyond(old(d.files), {Executable}, d.files) && d.clock == old(d.clock) + 8
    ensures (d.Calm(old(d.clock)) || d.Clear(old(d.clock), old(d.clock) + 8)) && Accepted(old(d.files)) ==> ok
  {
    if !RollbackMode(t.mode) {
      return false;
    }
    ghost var base := d.files;
    ghost var temp;
    ok, temp := Restore(d, t.backup, RestoreRole, t.mode, Executable);
    InProgressPut(base, Executable, Logical(base).executable);
    forall x | WithTemp(base, temp, x)
      ensures Undisturbed(base, x)
    {
      TempIsHarmless(base, temp, x);
    }
  }

  /** How many operations that takes when none of them fails. */
  function PreviousOps(t: Transaction): nat { if t.previousBackup.Some? then 9 else 1 }

  /** Puts the previous executable back from its backup, or removes it if there was none. */
  method RestorePrevious(d: Directory, t: Transaction) returns (ok: bool)
    requires d.Valid() && WellFormed(d.files) && InProgress(d.files) && JournalOf(d.files) == t
    modifies d
    ensures d.Valid() && old(d.states) <= d.states && old(d.clock) <= d.clock
    ensures AllKeep(old(d.files), {old(d.files)[Executable]}, old(d.states), d.states)
    ensures Keeps(old(d.files), {old(d.files)[Executable]}, d.files)
    ensures InProgress(d.files) && JournalOf(d.files) == t
    ensures ok ==> Find(d.files, Previous) == Logical(old(d.files)).previous
    ensures ok ==> Beyond(old(d.files), {Previous}, d.files) && d.clock == old(d.clock) + PreviousOps(t)
    ensures Accepted(old(d.files)) && PlainBackup(old(d.files), t) ==>
              d.Calm(old(d.clock)) || d.Clear(old(d.clock), old(d.clock) + PreviousOps(t)) ==> ok
  {
    ghost var base := d.files;
    if t.previousBackup.None? {
      InProgressDrop(base, Previous);
      ok := d.Remove(Previous);
      return;
    }
    var found := d.Open(t.previousBackup.value);
    if !found.Found? || !Plain(found.file.mode) || !RollbackMode(t.previousMode) {
      return false;
    }
    ghost var temp;
    ok, temp := Restore(d, t.previousBackup.value, PreviousRestoreRole, t.previousMode, Previous);
    InProgressPut(base, Previous, File(base[t.previousBackup.value].content, t.previousMode));
    forall x | WithTemp(base, temp, x)
      ensures Undisturbed(base, x)
    {
      TempIsHarmless(base, temp, x);
    }
  }

  predicate PlainBackup(d: Files, t: Transaction) {
    t.previousBackup.Some? && t.previousBackup.value in d ==> Plain(d[t.previousBackup.value].mode)
  }

  /** Removes the files that were to be installed; failures are ignored, cleanup retries them. */
  method DropCandidates(d: Directory, t: Transaction)
    requires d.Valid() && WellFormed(d.files) && InProgress(d.files) && JournalOf(d.files) == t
    modifies d
    ensures d.Valid() && old(d.states) <= d.states && old(d.clock) <= d.clock
    ensures AllKeep(old(d.files), {old(d.files)[Executable]}, old(d.states), d.states)
    ensures Keeps(old(d.files), {old(d.files)[Executable]}, d.files)
    ensures InProgress(d.files) && JournalOf(d.files) == t && Visible(d.files) == Visible(old(d.files))
    ensures Beyond(old(d.files), {t.candidate, t.previousCandidate}, d.files) && d.clock == old(d.clock) + 2
    ensures d.Calm(old(d.clock)) ==> t.candidate !in d.files && t.previousCandidate !in d.files
  {
    ghost var base := d.files;
    InProgressDrop(base, t.candidate);
    InProgressDrop(base, t.previousCandidate);
    InProgressDrop(base - {t.candidate}, t.previousCandidate);
    var _ := d.Remove(t.candidate);
    var _ := d.Remove(t.previousCandidate);
  }

  /** The operation that flushes the committed journal, counted from the removal of the candidates. */
  const FINISH_FLUSH: nat := 3 + PUBLISH_FLUSH

  /** With the pair restored, commits the journal so that only cleanup is left, and cleans up. */
  method FinishRollback(d: Directory, t: Transaction) returns (r: Rollback)
    requires d.Valid() && WellFormed(d.files) && InProgress(d.files) && JournalOf(d.files) == t
    requires Visible(d.files) == Logical(d.files)
    modifies d
    ensures d.Valid() && old(d.states) <= d.states && old(d.clock) <= d.clock
    ensures AllKeep(old(d.files), {old(d.files)[Executable]}, old(d.states), d.states)
    ensures Keeps(old(d.files), {old(d.files)[Executable]}, d.files)
    ensures !r.Stuck? ==> Settled(d.files, Logical(old(d.files)))
    ensures r.Undone? ==> Journal !in d.files && Listed(t) !! d.files.Keys
    ensures r.Undone? ==> Beyond(old(d.files), {Executable, Previous} + (Listed(t) + {Journal}), d.files)
    ensures r.UndoneUnsynced? ==> HasJournal(d.files) && JournalOf(d.files) == t.(committed := true) && t.backup in d.files
    ensures !r.Stuck? ==> (r.UndoneUnsynced? <==> old(d.clock) + FINISH_FLUSH in d.faults)
    ensures d.Clear(old(d.clock), old(d.clock) + FINISH_FLUSH) && old(d.clock) + FINISH_FLUSH in d.faults ==> r.UndoneUnsynced?
    ensures d.Calm(old(d.clock)) ==> r.Undone?
  {
    ghost var p := Visible(d.files);
    DropCandidates(d, t);
    var ok := d.Sync();
    if !ok {
      return Stuck;
    }
    var done := t.(committed := true);
    var published, temp := CommitRollback(d, done, p);
    if published.Refused? {
      return Stuck;
    }
    if published.Unsynced? {
      return UndoneUnsynced;
    }
    ok := CleanupCommitted(d, done);
    return if ok then Undone else Stuck;
  }

  /** Publishes the committed journal over a directory that already shows the pair `p`. */
  method CommitRollback(d: Directory, done: Transaction, ghost p: Installed) returns (r: Publication, ghost temp: Name)
    requires d.Valid() && WellFormed(d.files) && InProgress(d.files)
    requires done == JournalOf(d.files).(committed := true)
    requires Visible(d.files) == Logical(d.files) == p
    modifies d
    ensures d.Valid() && old(d.states) <= d.states && old(d.clock) <= d.clock
    ensures AllKeep(old(d.files), {p.executable}, old(d.states), d.states)
    ensures Keeps(old(d.files), {p.executable}, d.files)
    ensures !r.Refused? ==> Settled(d.files, p) && d.files == WithJournal(old(d.files), done)
    ensures !r.Refused? ==> (r.Unsynced? <==> old(d.clock) + PUBLISH_FLUSH in d.faults)
    ensures d.Clear(old(d.clock), old(d.clock) + PUBLISH_FLUSH) ==> !r.Refused?
    ensures d.Calm(old(d.clock)) ==> r.Published?
  {
    ghost var base := d.files;
    r, temp := PublishTransaction(d, done);
    assert Settled(WithJournal(base, done), p);
    forall x | WithTemp(base, temp, x)
      ensures Undisturbed(base, x)
    {
      TempIsHarmless(base, temp, x);
    }
  }

  /** Puts both files back. */
  method RestoreBoth(d: Directory, t: Transaction) returns (ok: bool)
    requires d.Valid() && WellFormed(d.files) && InProgress(d.files) && JournalOf(d.files) == t
    modifies d
    ensures d.Valid() && old(d.states) <= d.states && old(d.clock) <= d.clock
    ensures AllKeep(old(d.files), Undoing(old(d.files)), old(d.states), d.states)
    ensures Keeps(old(d.files), Undoing(old(d.files)), d.files)
    ensures InProgress(d.files) && JournalOf(d.files) == t
    ensures ok ==> Visible(d.files) == Logical(old(d.files))
    ensures ok ==> Beyond(old(d.files), {Executable, Previous}, d.files) && d.clock == old(d.clock) + 8 + PreviousOps(t)
    ensures Accepted(old(d.files)) && PlainBackup(old(d.files), t) ==>
              d.Calm(old(d.clock)) || d.Clear(old(d.clock), old(d.clock) + 8 + PreviousOps(t)) ==> ok
  {
    ok := RestoreExecutable(d, t);
    if !ok {
      return;
    }
    ghost var restored := d.files;
    ok := RestorePrevious(d, t);
    if ok {
      BeyondTwice(old(d.files), {Executable}, restored, {Previous}, d.files);
      assert {Executable} + {Previous} == {Executable, Previous};
    }
  }

  /** The number of the operation that flushes the committed journal of a rollback that starts at `clock`:
      it comes after restoring the executable and the previous one. */
  function RollbackFlush(clock: nat, t: Transaction): nat { clock + 8 + PreviousOps(t) + FINISH_FLUSH }

  /** Undoes an update whose journal is on disk and not committed. */
  method RollbackTransaction(d: Directory, t: Transaction) returns (r: Rollback)
    requires d.Valid() && WellFormed(d.files) && InProgress(d.files)
    requires JournalOf(d.files) == t.(committed := false)
    modifies d
    ensures d.Valid() && old(d.states) <= d.states && old(d.clock) <= d.clock
    ensures AllKeep(old(d.files), Undoing(old(d.files)), old(d.states), d.states)
    ensures Keeps(old(d.files), Undoing(old(d.files)), d.files)
    ensures !r.Stuck? ==> Settled(d.files, Logical(old(d.files)))
    ensures r.Undone? ==> Journal !in d.files && Listed(t) !! d.files.Keys
    ensures r.Undone? ==> Beyond(old(d.files), {Executable, Previous} + (Listed(t) + {Journal}), d.files)
    ensures r.UndoneUnsynced? ==> HasJournal(d.files) && JournalOf(d.files) == t.(committed := true) && t.backup in d.files
    ensures !r.Stuck? ==> (r.UndoneUnsynced? <==> RollbackFlush(old(d.clock), t) in d.faults)
    ensures Accepted(old(d.files)) && PlainBackup(old(d.files), t) ==>
              d.Clear(old(d.clock), RollbackFlush(old(d.clock), t)) && RollbackFlush(old(d.clock), t) in d.faults ==>
                r.UndoneUnsynced?
    ensures d.Calm(old(d.clock)) && Accepted(old(d.files)) ==> r.Undone?
  {
    var journal := t.(committed := false);
    var ok := RestoreBoth(d, journal);
    if !ok {
      return Stuck;
    }
    ghost var both := d.files;
    r := FinishRollback(d, journal);
    BothRestored(old(d.files), both, Listed(journal) + {Journal}, d.files);
  }

  lemma BothRestored(a: Files, b: Files, rest: set<Name>, c: Files)
    requires Beyond(a, {Executable, Previous}, b)
    ensures Beyond(b, {Executable, Previous} + rest, c) ==> Beyond(a, {Executable, Previous} + rest, c)
  {
  }

  lemma CleanEnd(a: Files, b: Files)
    requires WellFormed(a) && HasJournal(a) && Settled(b, Logical(a))
    requires Journal !in b && Listed(JournalOf(a)) !! b.Keys
    requires Beyond(a, {Executable, Previous} + (Listed(JournalOf(a)) + {Journal}), b)
    ensures b == RecoveredFiles(a)
  {
    NothingElseChanged(a, JournalFiles(a), Logical(a), b);
  }

  /** What recovery reports: whether it undid an update, and whether it failed. */
  datatype Recovery = Recovered | NothingToUndo | RecoveryFailed

  /** The number of that operation in a recovery that starts at `clock`: it first reads the journal and
      checks the backup. */
  function RecoveryFlush(clock: nat, t: Transaction): nat { RollbackFlush(clock + 2, t) }

  /** There is an update to undo, and flushing its committed journal fails. */
  predicate FlushFails(d: Files, clock: nat, faults: set<nat>) {
    InProgress(d) && RecoveryFlush(clock, JournalOf(d)) in faults
  }

  /** Finishes or undoes an update that was interrupted.  A recovery that is reported leaves the
      committed journal behind exactly when flushing it has failed. */
  method RecoverInterruptedUpdate(d: Directory) returns (r: Recovery)
    requires d.Valid() && WellFormed(d.files)
    modifies d
    ensures d.Valid() && old(d.states) <= d.states && old(d.clock) <= d.clock
    ensures AllKeep(old(d.files), Undoing(old(d.files)), old(d.states), d.states)
    ensures Keeps(old(d.files), Undoing(old(d.files)), d.files)
    ensures !r.RecoveryFailed? ==> Settled(d.files, Logical(old(d.files)))
    ensures r.Recovered? ==> InProgress(old(d.files))
    ensures r.NothingToUndo? ==> !InProgress(old(d.files))
    ensures !r.RecoveryFailed? ==> (Journal in d.files <==> FlushFails(old(d.files), old(d.clock), d.faults))
    ensures !r.RecoveryFailed? && Journal !in d.files ==> d.files == RecoveredFiles(old(d.files))
    ensures !r.RecoveryFailed? && Journal in d.files ==>
              && HasJournal(d.files) && JournalOf(d.files) == JournalOf(old(d.files)).(committed := true)
              && JournalOf(d.files).backup in d.files
    ensures d.Calm(old(d.clock)) && Accepted(old(d.files)) ==> !r.RecoveryFailed? && Journal !in d.files
    ensures FlushFails(old(d.files), old(d.clock), d.faults) && Accepted(old(d.files)) ==>
              d.Clear(old(d.clock), RecoveryFlush(old(d.clock), JournalOf(old(d.files)))) ==> r.Recovered?
  {
    var found := d.Open(Journal);
    if found.Missing? {
      return NothingToUndo;
    }
    if found.Unreadable? || !Plain(found.file.mode) || !found.file.content.Encoded? {
      return RecoveryFailed;
    }
    var t := found.file.content.txn;
    if t.committed {
      var ok := CleanupCommitted(d, t);
      if ok {
        CleanEnd(old(d.files), d.files);
      }
      return if ok then NothingToUndo else RecoveryFailed;
    }
    var backup := d.Open(t.backup);
    if !backup.Found? || !Plain(backup.file.mode) {
      return RecoveryFailed;
    }
    var undone := RollbackTransaction(d, t);
    if undone.Undone? {
      CleanEnd(old(d.files), d.files);
    }
    r := if undone.Stuck? then RecoveryFailed else Recovered;
  }

  // A reported recovery that leaves its journal

  /** If that flush is the only operation that fails, a recovery of any update under way reports success
      and leaves the committed journal and the backup; the next one removes them. */
  method JournalOutlivesRecovery(start: Files) returns (r: Recovery, left: Files, end: Files)
    requires WellFormed(start) && Accepted(start) && InProgress(start)
    ensures r.Recovered? && HasJournal(left) && JournalOf(left) == JournalOf(start).(committed := true)
    ensures JournalOf(start).backup in left
    ensures Settled(left, Logical(start)) && end == RecoveredFiles(left)
  {
    var d := new Directory(start, {RecoveryFlush(0, JournalOf(start))});
    r := RecoverInterruptedUpdate(d);
    left := d.files;
    var again := new Directory(left, {});
    var _ := RecoverInterruptedUpdate(again);
    end := again.files;
  }

  /** A directory that an update died in right after writing its journal. */
  function Interrupted(): Files {
    var mode, image := Mode(0x1ED, false), Binary([0x01]);
    var t := Transaction(Temp(RollbackRole, 0), Temp(CandidateRole, 0), Temp(PreviousCandidateRole, 0), None, Mode(0, false),
                         mode, Version(1, 2, 3), false);
    map[Executable := File(image, mode), Journal := File(Encoded(t), PRIVATE_MODE), t.backup := File(image, PRIVATE_MODE),
        t.candidate := File(Binary([0x02]), mode), t.previousCandidate := File(image, PRIVATE_MODE)]
  }

  lemma InterruptedIsRecoverable()
    ensures WellFormed(Interrupted()) && Accepted(Interrupted()) && InProgress(Interrupted())
    ensures RecoveryFlush(0, JournalOf(Interrupted())) == 19
  {
    assert (0x1ED as bv9) & EXECUTE_BITS != 0 && (0x1ED as bv9) & SHARED_WRITE_BITS == 0;
  }
}
