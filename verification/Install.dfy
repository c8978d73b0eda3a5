/** Installing a verified release over the running executable. */
module Install {
  import opened Common
  import opened JournalModel
  import opened UpdateDirectory
  import opened SelfUpdate

  /** `reports` is the version a program prints about itself, if it prints one at all. */
  datatype Request = Request(image: Content, targetVersion: Version, reports: Content -> Option<Version>)

  method RequireVersion(d: Directory, q: Request, program: Name) returns (ok: bool)
    requires d.Valid()
    modifies d`clock
    ensures d.clock == old(d.clock) + 1
    ensures ok <==> old(d.clock) !in d.faults && program in d.files
                    && q.reports(d.files[program].content) == Some(q.targetVersion)
  {
    var found := d.Open(program);
    ok := found.Found? && q.reports(found.file.content) == Some(q.targetVersion);
  }

  /** Checks that the installed executable may be replaced, and reads its mode. */
  method ValidateTarget(d: Directory, n: Name) returns (r: Lookup)
    requires d.Valid()
    modifies d`clock
    ensures d.clock == old(d.clock) + 1
    ensures r.Found? <==> old(d.clock) !in d.faults && n in d.files && TargetMode(d.files[n].mode)
    ensures r.Missing? <==> old(d.clock) !in d.faults && n !in d.files
    ensures r.Found? ==> r.file == d.files[n]
  {
    r := d.Open(n);
    if r.Found? && !TargetMode(r.file.mode) {
      r := Unreadable;
    }
  }

  ghost predicate AllUndisturbed(base: Files, before: set<Files>, now: set<Files>)
    requires WellFormed(base)
  {
    forall x <- now :: x in before || Undisturbed(base, x)
  }

  ghost predicate Made(base: Files, made: seq<Name>) {
    forall n <- made :: n.Temp? && n !in base
  }

  ghost function Names(made: seq<Name>): set<Name> { set n | n in made }

  lemma TempsAreHarmless(base: Files, a: Files, n: Name, before: set<Files>, now: set<Files>)
    requires WellFormed(base) && Undisturbed(base, a) && AllWithTemp(a, n, before, now)
    ensures AllUndisturbed(base, before, now)
  {
    forall x | x in now && x !in before
      ensures Undisturbed(base, x)
    {
      TempIsHarmless(a, n, x);
    }
  }

  lemma StillUndisturbed(base: Files, a: Files, before: set<Files>, seen: set<Files>, now: set<Files>)
    requires WellFormed(base) && Undisturbed(base, a)
    requires AllUndisturbed(base, before, seen) && AllUndisturbed(a, seen, now)
    ensures AllUndisturbed(base, before, now)
    ensures forall x :: Undisturbed(a, x) ==> Undisturbed(base, x)
  {
  }

  /** The directory has been in the state that is `base` and an empty staging file. */
  ghost predicate CandidateSeen(base: Files, states: set<Files>) {
    exists id: nat :: Temp(CandidateRole, id) !in base && WithCandidate(base, id) in states
  }

  function WithCandidate(base: Files, id: nat): Files {
    base[Temp(CandidateRole, id) := File(Binary([]), PRIVATE_MODE)]
  }

  /** Writes the release to a staging file and has it name its own version. */
  method StageCandidate(d: Directory, q: Request) returns (path: Option<Name>, ok: bool)
    requires d.Valid() && WellFormed(d.files)
    modifies d
    ensures d.Valid() && old(d.states) <= d.states && old(d.clock) <= d.clock
    ensures AllUndisturbed(old(d.files), old(d.states), d.states) && Undisturbed(old(d.files), d.files)
    ensures path.Some? ==> HasRole(path.value, CandidateRole) && path.value !in old(d.files)
    ensures path.Some? ==> path.value in d.files && d.files == old(d.files)[path.value := d.files[path.value]]
    ensures path.None? ==> d.files == old(d.files)
    ensures ok ==> path.Some? && d.files[path.value] == File(q.image, PRIVATE_EXECUTABLE_MODE)
    ensures ok ==> q.reports(q.image) == Some(q.targetVersion)
    ensures d.Calm(old(d.clock)) ==> CandidateSeen(old(d.files), d.states)
    ensures d.Calm(old(d.clock)) && q.reports(q.image) == Some(q.targetVersion) ==> ok
  {
    path, ok := Stage(d, CandidateRole, PRIVATE_EXECUTABLE_MODE, q.image);
    if path.None? {
      return;
    }
    assert WithCandidate(old(d.files), path.value.id) in d.states;
    TempsAreHarmless(old(d.files), old(d.files), path.value, old(d.states), d.states);
    TempIsHarmless(old(d.files), path.value, d.files);
    if ok {
      ok := d.Sync();
    }
    if ok {
      ok := RequireVersion(d, q, path.value);
    }
  }

  /** Copies the installed executable to the rollback file. */
  method StageBackup(d: Directory) returns (path: Option<Name>, ok: bool)
    requires d.Valid() && WellFormed(d.files)
    modifies d
    ensures d.Valid() && old(d.states) <= d.states && old(d.clock) <= d.clock
    ensures AllUndisturbed(old(d.files), old(d.states), d.states) && Undisturbed(old(d.files), d.files)
    ensures path.Some? ==> HasRole(path.value, RollbackRole) && path.value !in old(d.files)
    ensures path.Some? ==> path.value in d.files && d.files == old(d.files)[path.value := d.files[path.value]]
    ensures path.None? ==> d.files == old(d.files)
    ensures ok ==> path.Some? && d.files[path.value] == File(d.files[Executable].content, PRIVATE_MODE)
    ensures d.Calm(old(d.clock)) ==> ok
  {
    var current := d.Open(Executable);
    if !current.Found? {
      return None, false;
    }
    path, ok := Stage(d, RollbackRole, PRIVATE_MODE, current.file.content);
    if path.None? {
      return;
    }
    TempsAreHarmless(old(d.files), old(d.files), path.value, old(d.states), d.states);
    TempIsHarmless(old(d.files), path.value, d.files);
    if ok {
      ok := d.Sync();
    }
  }

  /** What is known about the `.previous` file before an update. */
  datatype PreviousState = Unsafe | Absent | Saved(backup: Name, mode: Mode)

  /** Copies an existing `.previous` file, whose mode must itself be a safe target mode. */
  method StagePrevious(d: Directory) returns (r: PreviousState)
    requires d.Valid() && WellFormed(d.files)
    modifies d
    ensures d.Valid() && old(d.states) <= d.states && old(d.clock) <= d.clock
    ensures AllUndisturbed(old(d.files), old(d.states), d.states) && Undisturbed(old(d.files), d.files)
    ensures !r.Saved? ==> forall n <- old(d.files) :: n in d.files && d.files[n] == old(d.files)[n]
    ensures r.Absent? ==> Previous !in old(d.files) && d.files == old(d.files)
    ensures d.Calm(old(d.clock)) && r.Unsafe? ==> d.files == old(d.files)
    ensures r.Saved? ==>
              && Previous in old(d.files) && HasRole(r.backup, PreviousBackupRole) && r.backup !in old(d.files)
              && TargetMode(r.mode) && r.mode == old(d.files)[Previous].mode
              && d.files == old(d.files)[r.backup := File(old(d.files)[Previous].content, PRIVATE_MODE)]
    ensures d.Calm(old(d.clock)) && (Previous in old(d.files) ==> TargetMode(old(d.files)[Previous].mode)) ==> !r.Unsafe?
  {
    var found := ValidateTarget(d, Previous);
    if found.Missing? {
      return Absent;
    }
    if found.Unreadable? {
      return Unsafe;
    }
    var path, temp := CloneToTemp(d, Previous, PreviousBackupRole, PRIVATE_MODE);
    TempsAreHarmless(old(d.files), old(d.files), temp, old(d.states), d.states);
    TempIsHarmless(old(d.files), temp, d.files);
    r := if path.None? then Unsafe else Saved(path.value, Perm(found.file.mode));
  }

  /** Nothing of `a` is missing or changed in `b`. */
  ghost predicate Extends(a: Files, b: Files) { forall n <- a :: n in b && b[n] == a[n] }

  /** The release and the rollback copy are on disk. */
  ghost predicate ImagesStaged(base: Files, candidate: Name, backup: Name, mode: Mode, image: Content, made: seq<Name>, x: Files) {
    && Executable in base && made == [candidate, backup]
    && HasRole(candidate, CandidateRole) && HasRole(backup, RollbackRole)
    && TargetMode(mode) && mode == base[Executable].mode
    && candidate in x && x[candidate] == File(image, PRIVATE_EXECUTABLE_MODE)
    && backup in x && x[backup] == File(base[Executable].content, PRIVATE_MODE)
  }

  /** So are the copies of the rollback file and of what `.previous` was. */
  ghost predicate CopiesStaged(base: Files, backup: Name, previous: PreviousState, path: Name, made: seq<Name>, x: Files) {
    && backup in base && HasRole(path, PreviousCandidateRole)
    && path in x && x[path] == File(base[backup].content, PRIVATE_MODE)
    && match previous
       case Unsafe => false
       case Absent => Previous !in base && made == [path]
       case Saved(saved, mode) =>
         && Previous in base && made == [saved, path] && HasRole(saved, PreviousBackupRole)
         && TargetMode(mode) && mode == base[Previous].mode
         && saved in x && x[saved] == File(base[Previous].content, PRIVATE_MODE)
  }

  /** The new executable and the rollback copy. */
  method StageImages(d: Directory, q: Request)
    returns (candidate: Name, backup: Name, mode: Mode, ok: bool, made: seq<Name>)
    requires d.Valid() && WellFormed(d.files)
    modifies d
    ensures d.Valid() && old(d.states) <= d.states && old(d.clock) <= d.clock
    ensures AllUndisturbed(old(d.files), old(d.states), d.states) && Undisturbed(old(d.files), d.files)
    ensures Made(old(d.files), made) && Beyond(old(d.files), Names(made), d.files)
    ensures Extends(old(d.files), d.files)
    ensures ok ==> ImagesStaged(old(d.files), candidate, backup, mode, q.image, made, d.files)
    ensures ok ==> q.reports(q.image) == Some(q.targetVersion)
    ensures d.Calm(old(d.clock)) && TargetMode(old(d.files)[Executable].mode) ==> CandidateSeen(old(d.files), d.states)
    ensures d.Calm(old(d.clock)) && TargetMode(old(d.files)[Executable].mode) && q.reports(q.image) == Some(q.targetVersion)
            ==> ok
  {
    made := [];
    candidate, backup, mode := Executable, Executable, PRIVATE_MODE;
    var target := ValidateTarget(d, Executable);
    if !target.Found? {
      return candidate, backup, mode, false, made;
    }
    mode := Perm(target.file.mode);
    var staged;
    staged, ok := StageCandidate(d, q);
    if staged.Some? {
      made, candidate := [staged.value], staged.value;
    }
    if !ok {
      return candidate, backup, mode, false, made;
    }
    target := ValidateTarget(d, Executable);
    if !target.Found? {
      return candidate, backup, mode, false, made;
    }
    staged, ok := StageBackup(d);
    if staged.Some? {
      made, backup := made + [staged.value], staged.value;
    }
  }

  /** The copies of the current and, if there is one, the earlier previous executable. */
  method StageCopies(d: Directory, backup: Name) returns (previous: PreviousState, path: Option<Name>, made: seq<Name>)
    requires d.Valid() && WellFormed(d.files) && backup in d.files
    modifies d
    ensures d.Valid() && old(d.states) <= d.states && old(d.clock) <= d.clock
    ensures AllUndisturbed(old(d.files), old(d.states), d.states) && Undisturbed(old(d.files), d.files)
    ensures Made(old(d.files), made)
    ensures path.Some? || d.Calm(old(d.clock)) ==> Beyond(old(d.files), Names(made), d.files)
    ensures Extends(old(d.files), d.files)
    ensures path.Some? ==> CopiesStaged(old(d.files), backup, previous, path.value, made, d.files)
    ensures d.Calm(old(d.clock)) && (Previous in old(d.files) ==> TargetMode(old(d.files)[Previous].mode)) ==> path.Some?
  {
    made := [];
    previous := StagePrevious(d);
    if previous.Unsafe? {
      return previous, None, made;
    }
    if previous.Saved? {
      made := [previous.backup];
    }
    ghost var before, seen := d.files, d.states;
    ghost var temp;
    path, temp := CloneToTemp(d, backup, PreviousCandidateRole, PRIVATE_MODE);
    TempsAreHarmless(old(d.files), before, temp, seen, d.states);
    TempIsHarmless(before, temp, d.files);
    if path.Some? {
      made := made + [path.value];
    }
  }

  /** What an update needs of the installed files and of the release, failures aside. */
  ghost predicate Updatable(d: Files, q: Request) {
    && Executable in d && TargetMode(d[Executable].mode)
    && (Previous in d ==> TargetMode(d[Previous].mode))
    && q.reports(q.image) == Some(q.targetVersion)
  }

  lemma UndisturbedChmod(a: Files, b: Files, n: Name, m: Mode)
    requires WellFormed(a) && Undisturbed(a, b) && n in b && n.Temp? && Plain(m)
    ensures Undisturbed(a, b[n := b[n].(mode := m)])
  {
    assert HasJournal(b) <==> HasJournal(a);
  }

  /** The files an update has been given. */
  datatype Parts = Parts(candidate: Name, backup: Name, mode: Mode, previous: PreviousState, path: Name)

  /** The release and copies of the pair are all on disk. */
  ghost predicate Prepared(base: Files, p: Parts, image: Content, x: Files) {
    && Executable in base && Executable in x && x[Executable] == base[Executable] && Find(x, Previous) == Find(base, Previous)
    && HasRole(p.candidate, CandidateRole) && HasRole(p.backup, RollbackRole) && HasRole(p.path, PreviousCandidateRole)
    && TargetMode(p.mode) && p.mode == base[Executable].mode
    && p.candidate in x && x[p.candidate] == File(image, PRIVATE_EXECUTABLE_MODE)
    && p.backup in x && x[p.backup] == File(base[Executable].content, PRIVATE_MODE)
    && p.path in x && x[p.path] == File(base[Executable].content, PRIVATE_MODE)
    && match p.previous
       case Unsafe => false
       case Absent => Previous !in base
       case Saved(saved, mode) =>
         && Previous in base && HasRole(saved, PreviousBackupRole)
         && TargetMode(mode) && mode == base[Previous].mode
         && saved in x && x[saved] == File(base[Previous].content, PRIVATE_MODE)
  }

  function NamesOf(p: Parts): set<Name> {
    {p.candidate, p.backup, p.path} + if p.previous.Saved? then {p.previous.backup} else {}
  }

  lemma MoreMade(a: Files, made: seq<Name>, b: Files, more: seq<Name>, c: Files)
    ensures Beyond(a, Names(made), b) && Beyond(b, Names(more), c) ==> Beyond(a, Names(made + more), c)
  {
  }

  lemma ArePrepared(base: Files, images: seq<Name>, mid: Files, copies: seq<Name>, end: Files, p: Parts, image: Content)
    requires ImagesStaged(base, p.candidate, p.backup, p.mode, image, images, mid) && Extends(base, mid) && Extends(mid, end)
    requires CopiesStaged(mid, p.backup, p.previous, p.path, copies, end)
    requires Beyond(base, Names(images), mid) && Beyond(mid, Names(copies), end)
    ensures Prepared(base, p, image, end) && NamesOf(p) == Names(images + copies)
  {
    PreviousIsSame(base, images, mid);
    PreviousIsSame(mid, copies, end);
  }

  lemma PreviousIsSame(a: Files, made: seq<Name>, b: Files)
    requires Beyond(a, Names(made), b) && forall n <- made :: n.Temp?
    ensures Find(b, Previous) == Find(a, Previous) && Find(b, Executable) == Find(a, Executable)
  {
  }

  /** The release, then the copies. */
  method StageParts(d: Directory, q: Request) returns (parts: Option<Parts>, made: seq<Name>)
    requires d.Valid() && WellFormed(d.files)
    modifies d
    ensures d.Valid() && old(d.states) <= d.states && old(d.clock) <= d.clock
    ensures AllUndisturbed(old(d.files), old(d.states), d.states) && Undisturbed(old(d.files), d.files)
    ensures Made(old(d.files), made)
    ensures parts.Some? || d.Calm(old(d.clock)) ==> Beyond(old(d.files), Names(made), d.files)
    ensures parts.Some? ==> NamesOf(parts.value) == Names(made)
    ensures parts.Some? ==> Prepared(old(d.files), parts.value, q.image, d.files) && q.reports(q.image) == Some(q.targetVersion)
    ensures d.Calm(old(d.clock)) && TargetMode(old(d.files)[Executable].mode) ==> CandidateSeen(old(d.files), d.states)
    ensures d.Calm(old(d.clock)) && Updatable(old(d.files), q) ==> parts.Some?
  {
    var candidate, backup, originalMode, ok;
    candidate, backup, originalMode, ok, made := StageImages(d, q);
    if !ok {
      return None, made;
    }
    ghost var mid, seen := d.files, d.states;
    var previous, path, copies := StageCopies(d, backup);
    StillUndisturbed(old(d.files), mid, old(d.states), seen, d.states);
    MoreMade(old(d.files), made, mid, copies, d.files);
    ghost var images := made;
    made := made + copies;
    if path.None? {
      return None, made;
    }
    parts := Some(Parts(candidate, backup, originalMode, previous, path.value));
    ArePrepared(old(d.files), images, mid, copies, d.files, parts.value, q.image);
  }

  function TransactionOf(p: Parts, version: Version): Transaction {
    Transaction(p.backup, p.candidate, p.path,
                if p.previous.Saved? then Some(p.previous.backup) else None,
                if p.previous.Saved? then p.previous.mode else Mode(0, false),
                p.mode, version, false)
  }

  lemma PreparedIsStaged(base: Files, p: Parts, image: Content, x: Files, version: Version)
    requires Prepared(base, p, image, x) && WellFormed(base) && Undisturbed(base, x)
    ensures var staged := x[p.candidate := x[p.candidate].(mode := p.mode)];
            && Staged(staged, TransactionOf(p, version), image) && Undisturbed(base, staged)
            && Listed(TransactionOf(p, version)) == NamesOf(p)
  {
    UndisturbedChmod(base, x, p.candidate, p.mode);
  }

  /** Prepares an update beside the installed pair: the release, the copies that can undo it and
      the copy to publish as `.previous`.  `made` lists what it created, also when it gives up. */
  method StageUpdate(d: Directory, q: Request) returns (t: Option<Transaction>, made: seq<Name>)
    requires d.Valid() && WellFormed(d.files)
    modifies d
    ensures d.Valid() && old(d.states) <= d.states && old(d.clock) <= d.clock
    ensures AllUndisturbed(old(d.files), old(d.states), d.states) && Undisturbed(old(d.files), d.files)
    ensures Made(old(d.files), made)
    ensures t.Some? || d.Calm(old(d.clock)) ==> Beyond(old(d.files), Names(made), d.files)
    ensures t.Some? ==> Listed(t.value) == Names(made)
    ensures t.Some? ==> Staged(d.files, t.value, q.image) && q.reports(q.image) == Some(q.targetVersion)
    ensures d.Calm(old(d.clock)) && TargetMode(old(d.files)[Executable].mode) ==> CandidateSeen(old(d.files), d.states)
    ensures d.Calm(old(d.clock)) && Updatable(old(d.files), q) ==> t.Some?
  {
    var parts;
    parts, made := StageParts(d, q);
    if parts.None? {
      return None, made;
    }
    var final := d.Open(Executable);
    if !final.Found? {
      return None, made;
    }
    PreparedIsStaged(old(d.files), parts.value, q.image, d.files, q.targetVersion);
    var ok := d.Chmod(parts.value.candidate, parts.value.mode);
    if !ok {
      return None, made;
    }
    t := Some(TransactionOf(parts.value, q.targetVersion));
  }

  // The journalled part

  /** Between writing the journal and committing it, `x` still stands for `base`'s pair. */
  ghost predicate Pending(base: Files, t: Transaction, whole: set<File>, x: Files)
    requires WellFormed(base)
  {
    && WellFormed(x) && InProgress(x) && JournalOf(x) == t && Accepted(x)
    && Logical(x) == Logical(base)
    && x[Executable] in whole
  }

  ghost predicate AllPending(base: Files, t: Transaction, whole: set<File>, before: set<Files>, now: set<Files>)
    requires WellFormed(base)
  {
    forall x <- now :: x in before || Pending(base, t, whole, x)
  }

  /** Creates the journal unless one exists.  `owns` tells whether a journal is there afterwards,
      in which case the staged files must stay. */
  method WriteTransaction(d: Directory, t: Transaction, ghost image: Content) returns (ok: bool, owns: bool)
    requires d.Valid() && WellFormed(d.files) && Staged(d.files, t, image)
    modifies d
    ensures d.Valid() && old(d.states) <= d.states && old(d.clock) <= d.clock
    ensures AllKeep(old(d.files), {old(d.files)[Executable]}, old(d.states), d.states)
    ensures Keeps(old(d.files), {old(d.files)[Executable]}, d.files)
    ensures owns <==> Journal in d.files
    ensures ok ==> Journal !in old(d.files) && d.files == WithJournal(old(d.files), t)
    ensures !owns ==> Undisturbed(old(d.files), d.files)
    ensures d.Calm(old(d.clock)) && Journal !in old(d.files) ==> ok
  {
    var found := d.Open(Journal);
    if !found.Missing? {
      return false, Journal in d.files;
    }
    ghost var base := d.files;
    var published;
    ghost var temp;
    published, temp := PublishTransaction(d, t);
    JournalStartsUpdate(base, t, image);
    forall x | WithTemp(base, temp, x)
      ensures Undisturbed(base, x) && Keeps(base, {base[Executable]}, x)
    {
      TempIsHarmless(base, temp, x);
    }
    return published.Published?, Journal in d.files;
  }

  /** Puts the release in place and has it name its version there. */
  method SwapExecutable(d: Directory, t: Transaction, q: Request, ghost base: Files, ghost whole: set<File>)
    returns (ok: bool)
    requires d.Valid() && WellFormed(base) && Pending(base, t, whole, d.files)
    requires t.candidate in d.files && d.files[t.candidate] in whole
    modifies d
    ensures d.Valid() && old(d.states) <= d.states && old(d.clock) <= d.clock
    ensures AllPending(base, t, whole, old(d.states), d.states) && Pending(base, t, whole, d.files)
    ensures ok ==> d.files == old(d.files)[Executable := old(d.files)[t.candidate]] - {t.candidate}
    ensures ok ==> q.reports(d.files[Executable].content) == Some(q.targetVersion)
    ensures d.Calm(old(d.clock)) && q.reports(old(d.files)[t.candidate].content) == Some(q.targetVersion) ==> ok
  {
    InProgressMove(d.files, t.candidate, Executable);
    ok := d.Rename(t.candidate, Executable);
    if ok {
      ok := d.Sync();
    }
    if ok {
      ok := RequireVersion(d, q, Executable);
    }
  }

  /** Publishes the copy of the old executable as `.previous`. */
  method PublishPrevious(d: Directory, t: Transaction, ghost base: Files, ghost whole: set<File>) returns (ok: bool)
    requires d.Valid() && WellFormed(base) && Pending(base, t, whole, d.files)
    requires Plain(t.mode) && t.backup in d.files && t.previousCandidate in d.files
    modifies d
    ensures d.Valid() && old(d.states) <= d.states && old(d.clock) <= d.clock
    ensures AllPending(base, t, whole, old(d.states), d.states) && Pending(base, t, whole, d.files)
    ensures ok ==> d.files[Executable] == old(d.files)[Executable]
    ensures ok ==> Find(d.files, Previous) == Some(File(old(d.files)[t.previousCandidate].content, t.mode))
    ensures ok ==> Beyond(old(d.files), {Previous, t.backup, t.previousCandidate}, d.files)
    ensures d.Calm(old(d.clock)) ==> ok
  {
    InProgressChmod(d.files, t.backup, t.mode);
    ok := d.Chmod(t.backup, t.mode);
    if !ok {
      return;
    }
    InProgressChmod(d.files, t.previousCandidate, t.mode);
    ok := d.Chmod(t.previousCandidate, t.mode);
    if !ok {
      return;
    }
    InProgressMove(d.files, t.previousCandidate, Previous);
    ok := d.Rename(t.previousCandidate, Previous);
    if ok {
      ok := d.Sync();
    }
  }

  /** Replaces the journal by its committed form: the step that makes the update take effect. */
  method CommitUpdate(d: Directory, t: Transaction, ghost base: Files, ghost whole: set<File>) returns (r: Publication)
    requires d.Valid() && WellFormed(base) && Pending(base, t.(committed := false), whole, d.files) && t.committed
    modifies d
    ensures d.Valid() && old(d.states) <= d.states && old(d.clock) <= d.clock
    ensures r.Refused? ==>
              && AllPending(base, t.(committed := false), whole, old(d.states), d.states)
              && Pending(base, t.(committed := false), whole, d.files)
    ensures !r.Refused? ==>
              && Settled(d.files, Visible(old(d.files))) && d.files == WithJournal(old(d.files), t)
              && forall x <- d.states ::
                   || x in old(d.states)
                   || Pending(base, t.(committed := false), whole, x)
                   || Settled(x, Visible(old(d.files)))
    ensures d.Calm(old(d.clock)) ==> r.Published?
  {
    ghost var current := d.files;
    ghost var temp;
    r, temp := PublishTransaction(d, t);
    CommitSettles(current, t);
    forall x | WithTemp(current, temp, x)
      ensures Undisturbed(current, x)
    {
      TempIsHarmless(current, temp, x);
    }
  }

  /** Undoes an update that is under way, after one of its steps failed. */
  method GiveUp(d: Directory, t: Transaction, ghost base: Files, ghost whole: set<File>)
    requires d.Valid() && WellFormed(base) && Pending(base, t.(committed := false), whole, d.files)
    requires Logical(base).executable in whole
    modifies d
    ensures d.Valid() && old(d.states) <= d.states && old(d.clock) <= d.clock
    ensures AllKeep(base, whole, old(d.states), d.states) && Keeps(base, whole, d.files)
  {
    var _ := RollbackTransaction(d, t);
  }

  /** The images that may be seen in the executable's place during an update. */
  ghost function Whole(d: Files, image: Content): set<File>
    requires Executable in d
  {
    {d[Executable], File(image, d[Executable].mode)}
  }

  ghost predicate AllKeepOrSettle(base: Files, whole: set<File>, p: Installed, before: set<Files>, now: set<Files>)
    requires WellFormed(base)
  {
    forall x <- now :: x in before || Keeps(base, whole, x) || Settled(x, p)
  }

  /** The files an update writes or removes. */
  function Touched(t: Transaction): set<Name> { {Executable, Previous} + (Listed(t) + {Journal}) }

  /** Swaps both files in; on failure undoes what was done. */
  method ApplyUpdate(d: Directory, t: Transaction, q: Request, ghost base: Files, ghost whole: set<File>) returns (ok: bool)
    requires d.Valid() && WellFormed(base) && Pending(base, t, whole, d.files) && Staged(base, t, q.image)
    requires d.files == WithJournal(base, t) && whole == Whole(base, q.image) && Logical(base).executable in whole
    modifies d
    ensures d.Valid() && old(d.states) <= d.states && old(d.clock) <= d.clock
    ensures AllKeep(base, whole, old(d.states), d.states) && Keeps(base, whole, d.files)
    ensures ok ==> Pending(base, t, whole, d.files) && Visible(d.files) == Updated(Visible(base), q.image)
    ensures ok ==> Beyond(old(d.files), Touched(t), d.files)
    ensures d.Calm(old(d.clock)) && q.reports(q.image) == Some(q.targetVersion) ==> ok
  {
    ok := SwapBoth(d, t, q, base, whole);
    if !ok {
      GiveUp(d, t, base, whole);
    }
  }

  method SwapBoth(d: Directory, t: Transaction, q: Request, ghost base: Files, ghost whole: set<File>) returns (ok: bool)
    requires d.Valid() && WellFormed(base) && Pending(base, t, whole, d.files) && Staged(base, t, q.image)
    requires d.files == WithJournal(base, t) && whole == Whole(base, q.image)
    modifies d
    ensures d.Valid() && old(d.states) <= d.states && old(d.clock) <= d.clock
    ensures AllPending(base, t, whole, old(d.states), d.states) && Pending(base, t, whole, d.files)
    ensures ok ==> Visible(d.files) == Updated(Visible(base), q.image)
    ensures ok ==> Beyond(old(d.files), Touched(t), d.files)
    ensures d.Calm(old(d.clock)) && q.reports(q.image) == Some(q.targetVersion) ==> ok
  {
    ok := SwapExecutable(d, t, q, base, whole);
    ghost var swapped := d.files;
    if ok {
      ok := PublishPrevious(d, t, base, whole);
    }
    if ok {
      OnlyTouched(old(d.files), t, swapped, d.files);
    }
  }

  lemma OnlyTouched(a: Files, t: Transaction, b: Files, c: Files)
    requires t.candidate in a && b == a[Executable := a[t.candidate]] - {t.candidate}
    requires Beyond(b, {Previous, t.backup, t.previousCandidate}, c)
    ensures Beyond(a, Touched(t), c)
  {
  }

  /** Commits and cleans up; a failed commit is undone, a failed cleanup is left to recovery. */
  method CommitOrUndo(d: Directory, t: Transaction, ghost base: Files, ghost whole: set<File>) returns (ok: bool, owns: bool)
    requires d.Valid() && WellFormed(base) && Pending(base, t, whole, d.files) && !t.committed
    requires Logical(base).executable in whole
    modifies d
    ensures d.Valid() && old(d.states) <= d.states && old(d.clock) <= d.clock
    ensures AllKeepOrSettle(base, whole, Visible(old(d.files)), old(d.states), d.states)
    ensures !ok ==> owns && AllKeep(base, whole, old(d.states), d.states) && Keeps(base, whole, d.files)
    ensures ok ==> Settled(d.files, Visible(old(d.files)))
    ensures ok && !owns ==> Journal !in d.files && Listed(t) !! d.files.Keys && Beyond(old(d.files), Touched(t), d.files)
    ensures d.Calm(old(d.clock)) ==> ok && !owns
  {
    var done := t.(committed := true);
    var committed := CommitUpdate(d, done, base, whole);
    if committed.Refused? {
      GiveUp(d, done, base, whole);
      return false, true;
    }
    if committed.Unsynced? {
      return true, true;
    }
    var cleaned := CleanupCommitted(d, done);
    return true, !cleaned;
  }

  /** The journalled sequence, from writing the journal to removing it. */
  method RunTransaction(d: Directory, t: Transaction, q: Request) returns (ok: bool, owns: bool)
    requires d.Valid() && WellFormed(d.files) && Staged(d.files, t, q.image)
    modifies d
    ensures d.Valid() && old(d.states) <= d.states && old(d.clock) <= d.clock
    ensures AllKeepOrSettle(old(d.files), Whole(old(d.files), q.image), Updated(Visible(old(d.files)), q.image), old(d.states), d.states)
    ensures !ok ==> AllKeep(old(d.files), Whole(old(d.files), q.image), old(d.states), d.states)
    ensures !ok ==> Keeps(old(d.files), Whole(old(d.files), q.image), d.files)
    ensures ok ==> Journal !in old(d.files) && Settled(d.files, Updated(Visible(old(d.files)), q.image))
    ensures ok && !owns ==> Journal !in d.files && Listed(t) !! d.files.Keys && Beyond(old(d.files), Touched(t), d.files)
    ensures !ok && !owns ==> Undisturbed(old(d.files), d.files)
    ensures d.Calm(old(d.clock)) && Journal !in old(d.files) && q.reports(q.image) == Some(q.targetVersion) ==> ok && !owns
  {
    ghost var base, whole := d.files, Whole(d.files, q.image);
    if Journal !in base {
      JournalStartsUpdate(base, t, q.image);
    }
    ok, owns := WriteTransaction(d, t, q.image);
    if !ok {
      return;
    }
    ok := ApplyUpdate(d, t, q, base, whole);
    if !ok {
      return;
    }
    ok, owns := CommitOrUndo(d, t, base, whole);
  }

  /** Removes staged files, newest first, ignoring failures. */
  method Discard(d: Directory, made: seq<Name>)
    requires d.Valid()
    modifies d
    ensures d.Valid() && old(d.states) <= d.states && old(d.clock) <= d.clock
    ensures Without(old(d.files), made, d.files)
    ensures forall x <- d.states :: x in old(d.states) || Without(old(d.files), made, x)
    ensures d.Calm(old(d.clock)) ==> forall n <- made :: n !in d.files
  {
    var i := |made|;
    while i > 0
      invariant 0 <= i <= |made|
      invariant d.Calm(old(d.clock)) ==> forall j :: i <= j < |made| ==> made[j] !in d.files
      invariant d.Valid() && old(d.states) <= d.states && old(d.clock) <= d.clock
      invariant Without(old(d.files), made, d.files)
      invariant forall x <- d.states :: x in old(d.states) || Without(old(d.files), made, x)
    {
      i := i - 1;
      var _ := d.Remove(made[i]);
    }
  }

  /** Removing the staged files changes nothing, after a success or after an early error. */
  method DiscardStaged(d: Directory, made: seq<Name>, ok: bool, ghost base: Files, ghost p: Installed)
    requires d.Valid() && WellFormed(base) && Made(base, made)
    requires if ok then Settled(d.files, p) && Journal !in d.files else Undisturbed(base, d.files)
    modifies d
    ensures d.Valid() && old(d.states) <= d.states && old(d.clock) <= d.clock
    ensures forall x <- d.states :: x in old(d.states) || if ok then Settled(x, p) else Undisturbed(base, x)
    ensures if ok then Settled(d.files, p) && Journal !in d.files else Undisturbed(base, d.files)
    ensures Beyond(old(d.files), Names(made), d.files)
    ensures d.Calm(old(d.clock)) ==> Names(made) !! d.files.Keys
  {
    ghost var last := d.files;
    Discard(d, made);
    forall x | Without(last, made, x)
      ensures if ok then Settled(x, p) else Undisturbed(base, x)
    {
      if ok {
        SettledWithoutTemps(last, p, made, x);
      } else {
        UndisturbedWithout(base, last, made, x);
      }
    }
  }

  /** What the journalled part says about the staged directory holds of the directory before. */
  lemma AfterStaging(base: Files, staged: Files, whole: set<File>, p: Installed,
                     before: set<Files>, seen: set<Files>, now: set<Files>)
    requires WellFormed(base) && Undisturbed(base, staged) && AllUndisturbed(base, before, seen)
    requires base[Executable] in whole && AllKeepOrSettle(staged, whole, p, seen, now)
    ensures AllKeepOrSettle(base, whole, p, before, now)
    ensures AllKeep(staged, whole, seen, now) ==> AllKeep(base, whole, before, now)
    ensures forall x :: Keeps(staged, whole, x) ==> Keeps(base, whole, x)
    ensures forall x :: Undisturbed(staged, x) ==> Undisturbed(base, x)
  {
    forall x
      ensures Keeps(staged, whole, x) ==> Keeps(base, whole, x)
      ensures Undisturbed(base, x) ==> Keeps(base, whole, x)
    {
    }
  }

  /** Stages an update and runs it.  `made` may be removed afterwards unless `owns`. */
  method StageAndRun(d: Directory, q: Request) returns (ok: bool, owns: bool, made: seq<Name>)
    requires d.Valid() && WellFormed(d.files)
    modifies d
    ensures d.Valid() && old(d.states) <= d.states && old(d.clock) <= d.clock
    ensures AllKeepOrSettle(old(d.files), Whole(old(d.files), q.image), Updated(Visible(old(d.files)), q.image), old(d.states), d.states)
    ensures ok ==> Settled(d.files, Updated(Visible(old(d.files)), q.image))
    ensures ok ==> Journal !in old(d.files) && q.reports(q.image) == Some(q.targetVersion)
    ensures !ok ==> AllKeep(old(d.files), Whole(old(d.files), q.image), old(d.states), d.states)
    ensures !ok ==> Keeps(old(d.files), Whole(old(d.files), q.image), d.files)
    ensures Made(old(d.files), made)
    ensures !ok && !owns ==> Undisturbed(old(d.files), d.files)
    ensures ok && !owns ==> Journal !in d.files && Beyond(old(d.files), {Executable, Previous, Journal} + Names(made), d.files)
    ensures d.Calm(old(d.clock)) && ok ==> !owns
    ensures d.Calm(old(d.clock)) && !ok && Journal !in old(d.files) ==> !owns && Beyond(old(d.files), Names(made), d.files)
    ensures d.Calm(old(d.clock)) && TargetMode(old(d.files)[Executable].mode) ==> CandidateSeen(old(d.files), d.states)
    ensures d.Calm(old(d.clock)) && Updatable(old(d.files), q) && Journal !in old(d.files) ==> ok
  {
    var t;
    t, made := StageUpdate(d, q);
    owns := false;
    ok := false;
    if t.Some? {
      ghost var staged, seen := d.files, d.states;
      ok, owns := RunTransaction(d, t.value, q);
      AfterStaging(old(d.files), staged, Whole(staged, q.image), Updated(Visible(staged), q.image), old(d.states), seen, d.states);
      if ok && !owns {
        BeyondTwice(old(d.files), Names(made), staged, Touched(t.value), d.files);
        assert Names(made) + Touched(t.value) == {Executable, Previous, Journal} + Names(made);
      }
    }
  }

  lemma NothingLeft(base: Files, made: seq<Name>, ran: Files, end: Files)
    requires Made(base, made) && Beyond(base, Names(made), ran) && Beyond(ran, Names(made), end) && Names(made) !! end.Keys
    ensures end == base
  {
    assert forall n <- base :: n !in Names(made);
    assert forall n <- end :: n in base && end[n] == base[n];
  }

  lemma OnlyPairChanged(base: Files, made: seq<Name>, ran: Files, end: Files, p: Installed)
    requires Made(base, made) && Journal !in base && Journal !in end
    requires Beyond(base, {Executable, Previous, Journal} + Names(made), ran)
    requires Beyond(ran, Names(made), end) && Names(made) !! end.Keys
    requires Executable in end && Visible(end) == p
    ensures end == Showing(base, p)
  {
    var gone := Names(made) + {Journal};
    BeyondTwice(base, {Executable, Previous, Journal} + Names(made), ran, Names(made), end);
    assert {Executable, Previous, Journal} + Names(made) + Names(made) == {Executable, Previous} + gone;
    NothingElseChanged(base, gone, p, end);
    assert base - gone == base;
  }

  /** Installs a release.  Whatever fails and wherever the process dies, every state on the way
      stands for the old pair or for the new one.  A reported success stands for the new pair with
      no journal that could undo it; a reported error stands for the old pair.  If no operation
      fails, a success has changed nothing but the pair, and an error nothing at all. */
  method InstallVerified(d: Directory, q: Request) returns (ok: bool)
    requires d.Valid() && WellFormed(d.files)
    modifies d
    ensures d.Valid() && old(d.states) <= d.states && old(d.clock) <= d.clock
    ensures AllKeepOrSettle(old(d.files), Whole(old(d.files), q.image), Updated(Visible(old(d.files)), q.image), old(d.states), d.states)
    ensures ok ==> Settled(d.files, Updated(Visible(old(d.files)), q.image))
    ensures ok ==> Journal !in old(d.files) && q.reports(q.image) == Some(q.targetVersion)
    ensures ok ==> d.files[Executable] == File(q.image, old(d.files)[Executable].mode)
    ensures ok ==> Find(d.files, Previous) == Some(old(d.files)[Executable])
    ensures !ok ==> AllKeep(old(d.files), Whole(old(d.files), q.image), old(d.states), d.states)
    ensures !ok ==> Keeps(old(d.files), Whole(old(d.files), q.image), d.files)
    ensures d.Calm(old(d.clock)) && Updatable(old(d.files), q) && Journal !in old(d.files) ==> ok
    ensures d.Calm(old(d.clock)) && TargetMode(old(d.files)[Executable].mode) ==> CandidateSeen(old(d.files), d.states)
    ensures d.Calm(old(d.clock)) && ok ==> d.files == Showing(old(d.files), Updated(Visible(old(d.files)), q.image))
    ensures d.Calm(old(d.clock)) && !ok && Journal !in old(d.files) ==> d.files == old(d.files)
  {
    var owns, made;
    ok, owns, made := StageAndRun(d, q);
    if !owns {
      ghost var ran, p := d.files, Updated(Visible(old(d.files)), q.image);
      DiscardStaged(d, made, ok, old(d.files), p);
      if d.Calm(old(d.clock)) {
        if ok {
          OnlyPairChanged(old(d.files), made, ran, d.files, p);
        } else if Journal !in old(d.files) {
          NothingLeft(old(d.files), made, ran, d.files);
        }
      }
    }
  }
}
