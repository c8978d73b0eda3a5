/** The directory a self-update works in, the journal it writes there, and what both mean.

    `Installed` is what a user sees: an executable and, perhaps, the executable before it.
    `Logical` reads that pair out of any directory, even one an update was interrupted in: an
    uncommitted journal stands for the pair its backups hold, every other directory for the pair
    it shows.  The protocol is right when no file operation changes this pair except the one that
    publishes the committed journal. */
module JournalModel {
  import opened Common

  type Bytes = seq<bv8>

  /** Mode of a regular file: the nine permission bits, and whether any other bit is set. */
  datatype Mode = Mode(permissions: bv9, special: bool)

  const EXECUTE_BITS: bv9 := 0x049
  const SHARED_WRITE_BITS: bv9 := 0x012
  const PRIVATE_MODE := Mode(0x180, false)
  const PRIVATE_EXECUTABLE_MODE := Mode(0x1C0, false)

  /** Temporary names carry the pattern they were created from, so two roles never collide. */
  datatype Role =
    | CandidateRole | RollbackRole | PreviousBackupRole | PreviousCandidateRole
    | RestoreRole | PreviousRestoreRole | TransactionRole

  /** A stable release version, the only kind that is ever installed. */
  datatype Version = Version(major: nat, minor: nat, patch: nat)

  predicate Older(a: Version, b: Version) {
    || a.major < b.major
    || (a.major == b.major && (a.minor < b.minor || (a.minor == b.minor && a.patch < b.patch)))
  }

  /** Exactly one of two versions is older, or they are equal, and older is passed on; a major version
      outweighs a minor one, and a minor one a patch. */
  lemma VersionsAreOrdered(a: Version, b: Version, c: Version)
    ensures (Older(a, b) || a == b || Older(b, a)) && !(Older(a, b) && Older(b, a)) && !Older(a, a)
    ensures Older(a, b) && Older(b, c) ==> Older(a, c)
    ensures Older(a, a.(major := a.major + 1, minor := b.minor, patch := b.patch))
    ensures Older(a, a.(minor := a.minor + 1, patch := b.patch)) && Older(a, a.(patch := a.patch + 1))
  {
  }

  datatype Name = Executable | Previous | Journal | Temp(role: Role, id: nat)

  datatype Transaction = Transaction(
    backup: Name,
    candidate: Name,
    previousCandidate: Name,
    previousBackup: Option<Name>,
    previousMode: Mode,
    mode: Mode,
    targetVersion: Version,
    committed: bool)

  /** `Torn` is a file whose write was cut short; `Encoded` is a whole journal. */
  datatype Content = Binary(bytes: Bytes) | Encoded(txn: Transaction) | Torn

  datatype File = File(content: Content, mode: Mode)

  type Files = map<Name, File>

  datatype Installed = Installed(executable: File, previous: Option<File>)

  function Find(d: Files, n: Name): Option<File> {
    if n in d then Some(d[n]) else None
  }

  // Mode policies

  function Perm(m: Mode): Mode { m.(special := false) }

  predicate Plain(m: Mode) { !m.special }

  predicate ExecutableNotShared(m: Mode) {
    m.permissions & EXECUTE_BITS != 0 && m.permissions & SHARED_WRITE_BITS == 0
  }

  /** What the ownership check asks of an executable's mode. */
  predicate TargetMode(m: Mode) { Plain(m) && ExecutableNotShared(m) }

  /** What a rollback asks of a mode it reads from the journal. */
  predicate RollbackMode(m: Mode) { m == Perm(m) && ExecutableNotShared(m) }

  /** Modes 0755, 0700 and 0555 pass both checks; 0644, 0775, 0757 and a set-id bit pass neither. */
  lemma ModesAtWork()
    ensures forall m <- [0x1ED, 0x1C0, 0x16D] :: TargetMode(Mode(m, false)) && RollbackMode(Mode(m, false))
    ensures forall m <- [0x1A4, 0x1FD, 0x1EF] :: !TargetMode(Mode(m, false)) && !RollbackMode(Mode(m, false))
    ensures forall m: Mode :: m.special ==> !TargetMode(m) && !RollbackMode(m)
  {
  }

  /** Whatever the check of a target accepts, a rollback accepts when it reads it back. */
  lemma RecordedModesAreAccepted(m: Mode)
    ensures TargetMode(m) ==> RollbackMode(Perm(m)) && Perm(m) == m
  {
  }

  // Journals

  function Listed(t: Transaction): set<Name> {
    {t.backup, t.candidate, t.previousCandidate} + BackupOf(t.previousBackup)
  }

  function BackupOf(n: Option<Name>): set<Name> {
    match n
    case None => {}
    case Some(b) => {b}
  }

  predicate HasRole(n: Name, role: Role) { n.Temp? && n.role == role }

  predicate RightRoles(t: Transaction) {
    && HasRole(t.backup, RollbackRole)
    && HasRole(t.candidate, CandidateRole)
    && HasRole(t.previousCandidate, PreviousCandidateRole)
    && (t.previousBackup.Some? ==> HasRole(t.previousBackup.value, PreviousBackupRole))
  }

  predicate HasJournal(d: Files) { Journal in d && d[Journal].content.Encoded? }

  function JournalOf(d: Files): Transaction
    requires HasJournal(d)
  {
    d[Journal].content.txn
  }

  /** An update is under way: the journal is whole and not committed. */
  predicate InProgress(d: Files) { HasJournal(d) && !JournalOf(d).committed }

  /** What an uncommitted journal needs on disk so that it can be undone. */
  predicate CanUndo(d: Files, t: Transaction) {
    t.backup in d && (t.previousBackup.Some? ==> t.previousBackup.value in d)
  }

  /** A journal can be read whole, or there is none. */
  predicate Legible(d: Files) { Journal in d ==> HasJournal(d) }

  /** Recovery will not refuse this directory: the journal can be read, and the modes it records
      are ones a rollback accepts. */
  predicate Accepted(d: Files) {
    && Legible(d)
    && (InProgress(d) ==>
          && RollbackMode(JournalOf(d).mode)
          && (JournalOf(d).previousBackup.Some? ==> RollbackMode(JournalOf(d).previousMode)))
  }

  /** The directory invariant, true of every state between any two file operations. */
  predicate WellFormed(d: Files) {
    && Executable in d
    && (HasJournal(d) ==>
          && Plain(d[Journal].mode)
          && RightRoles(JournalOf(d))
          && forall n <- Listed(JournalOf(d)) :: n in d ==> Plain(d[n].mode))
    && (InProgress(d) ==> CanUndo(d, JournalOf(d)))
  }

  function Visible(d: Files): Installed
    requires Executable in d
  {
    Installed(d[Executable], Find(d, Previous))
  }

  function Backed(d: Files, t: Transaction): Installed
    requires CanUndo(d, t)
  {
    Installed(
      File(d[t.backup].content, t.mode),
      match t.previousBackup
      case None => None
      case Some(b) => Some(File(d[b].content, t.previousMode)))
  }

  /** The installed pair that a directory stands for. */
  function Logical(d: Files): Installed
    requires WellFormed(d)
  {
    if InProgress(d) then Backed(d, JournalOf(d)) else Visible(d)
  }

  function Updated(p: Installed, image: Content): Installed {
    Installed(File(image, p.executable.mode), Some(p.executable))
  }

  /** What an update makes of a pair: the new image at the old mode, and the old executable as previous. */
  lemma UpdatedPair(p: Installed, image: Content)
    ensures var u := Updated(p, image);
            && u.executable.content == image && u.executable.mode == p.executable.mode
            && u.previous.Some? && u.previous.value.content == p.executable.content && u.previous.value.mode == p.executable.mode
  {
  }

  /** What an interrupted directory stands for: its backups, at the modes the journal records. */
  lemma LogicalPair(d: Files)
    requires WellFormed(d)
    ensures !(HasJournal(d) && !JournalOf(d).committed) ==>
              Logical(d).executable == d[Executable] && Logical(d).previous == Find(d, Previous)
    ensures HasJournal(d) && !JournalOf(d).committed ==>
              var t, p := JournalOf(d), Logical(d);
              && p.executable.content == d[t.backup].content && p.executable.mode == t.mode
              && (t.previousBackup.None? <==> p.previous.None?)
              && (p.previous.Some? ==>
                    p.previous.value.content == d[t.previousBackup.value].content && p.previous.value.mode == t.previousMode)
  {
  }

  // Frames

  /** `x` is `base`, or `base` with one plain temporary file added. */
  ghost predicate WithTemp(base: Files, n: Name, x: Files) {
    && n.Temp? && n !in base
    && (x == base || (n in x && x == base[n := x[n]] && Plain(x[n].mode)))
  }

  ghost predicate AllWithTemp(base: Files, n: Name, before: set<Files>, now: set<Files>) {
    forall x <- now :: x in before || WithTemp(base, n, x)
  }

  /** `b` shows the same pair as `a`, stands for the same pair, and has the same journal. */
  ghost predicate Undisturbed(a: Files, b: Files)
    requires WellFormed(a)
  {
    && WellFormed(b)
    && Find(b, Journal) == Find(a, Journal)
    && Visible(b) == Visible(a)
    && Logical(b) == Logical(a)
  }

  lemma TempIsHarmless(a: Files, n: Name, b: Files)
    requires WellFormed(a) && WithTemp(a, n, b)
    ensures Undisturbed(a, b)
  {
  }

  /** No update is under way, so the visible pair `p` is what the directory stands for. */
  ghost predicate Settled(d: Files, p: Installed) {
    WellFormed(d) && Legible(d) && !InProgress(d) && Visible(d) == p
  }

  lemma SettledWithout(d: Files, p: Installed, n: Name)
    requires Settled(d, p) && n != Executable && n != Previous
    ensures Settled(d - {n}, p)
  {
    assert forall m <- d - {n} :: (d - {n})[m] == d[m];
  }

  /** `x` stands for the same pair as `base`, its executable is one of the whole files `whole`,
      and recovery will not refuse it if it would not have refused `base`. */
  ghost predicate Keeps(base: Files, whole: set<File>, x: Files)
    requires WellFormed(base)
  {
    && WellFormed(x)
    && Logical(x) == Logical(base)
    && x[Executable] in whole
    && (Accepted(base) ==> Accepted(x))
  }

  ghost predicate AllKeep(base: Files, whole: set<File>, before: set<Files>, now: set<Files>)
    requires WellFormed(base)
  {
    forall x <- now :: x in before || Keeps(base, whole, x)
  }

  // Steps of a rollback

  /** Restoring a visible file while the journal is uncommitted changes nothing it stands for. */
  lemma InProgressPut(d: Files, target: Name, f: File)
    requires WellFormed(d) && InProgress(d) && (target == Executable || target == Previous)
    ensures WellFormed(d[target := f]) && InProgress(d[target := f])
    ensures JournalOf(d[target := f]) == JournalOf(d) && Logical(d[target := f]) == Logical(d)
  {
  }

  lemma InProgressDrop(d: Files, n: Name)
    requires WellFormed(d) && InProgress(d)
    requires n == Previous || n == JournalOf(d).candidate || n == JournalOf(d).previousCandidate
    ensures WellFormed(d - {n}) && InProgress(d - {n})
    ensures JournalOf(d - {n}) == JournalOf(d) && Logical(d - {n}) == Logical(d)
    ensures (d - {n})[Executable] == d[Executable]
    ensures n != Previous ==> Visible(d - {n}) == Visible(d)
  {
    assert forall m <- d - {n} :: (d - {n})[m] == d[m];
  }

  // Steps of an installation

  /** Everything an update needs is on disk: the new executable, and copies of the visible pair. */
  ghost predicate Staged(d: Files, t: Transaction, image: Content) {
    && Executable in d && RightRoles(t) && !t.committed
    && (forall n <- Listed(t) :: n in d && Plain(d[n].mode))
    && d[t.candidate] == File(image, t.mode)
    && d[t.backup].content == d[t.previousCandidate].content == d[Executable].content
    && RollbackMode(t.mode) && t.mode == d[Executable].mode
    && (t.previousBackup.Some? <==> Previous in d)
    && (t.previousBackup.Some? ==>
          && d[t.previousBackup.value].content == d[Previous].content
          && RollbackMode(t.previousMode) && t.previousMode == d[Previous].mode)
  }

  ghost function WithJournal(d: Files, t: Transaction): Files {
    d[Journal := File(Encoded(t), PRIVATE_MODE)]
  }

  /** Writing the journal keeps the pair: from here on the backups hold it. */
  lemma JournalStartsUpdate(d: Files, t: Transaction, image: Content)
    requires WellFormed(d) && Staged(d, t, image) && Journal !in d
    ensures WellFormed(WithJournal(d, t)) && InProgress(WithJournal(d, t)) && Accepted(WithJournal(d, t))
    ensures Logical(WithJournal(d, t)) == Logical(d) == Visible(d)
  {
    assert File(d[t.backup].content, t.mode) == d[Executable];
  }

  /** Moving a staged file into view leaves the backups, and so the pair, alone. */
  lemma InProgressMove(d: Files, source: Name, target: Name)
    requires WellFormed(d) && InProgress(d) && source in d
    requires source == JournalOf(d).candidate || source == JournalOf(d).previousCandidate
    requires target == Executable || target == Previous
    ensures var x := d[target := d[source]] - {source};
            WellFormed(x) && InProgress(x) && JournalOf(x) == JournalOf(d) && Logical(x) == Logical(d)
  {
    InProgressPut(d, target, d[source]);
    InProgressDrop(d[target := d[source]], source);
  }

  lemma InProgressChmod(d: Files, n: Name, m: Mode)
    requires WellFormed(d) && InProgress(d) && n in d && n.Temp? && Plain(m)
    ensures var x := d[n := d[n].(mode := m)];
            WellFormed(x) && InProgress(x) && JournalOf(x) == JournalOf(d) && Logical(x) == Logical(d)
  {
  }

  /** Publishing the committed journal is the step that changes what the directory stands for. */
  lemma CommitSettles(d: Files, done: Transaction)
    requires WellFormed(d) && InProgress(d) && done == JournalOf(d).(committed := true)
    ensures Settled(WithJournal(d, done), Visible(d))
    ensures Logical(WithJournal(d, done)) == Visible(d)
  {
  }

  /** `a` and `b` differ in the files `touched` at most. */
  ghost predicate Beyond(a: Files, touched: set<Name>, b: Files) {
    && (forall n <- a :: n !in touched ==> n in b && b[n] == a[n])
    && (forall n <- b :: n !in touched ==> n in a)
  }

  lemma BeyondTwice(a: Files, s: set<Name>, b: Files, t: set<Name>, c: Files)
    requires Beyond(a, s, b) && Beyond(b, t, c)
    ensures Beyond(a, s + t, c)
  {
  }

  /** `d` with the visible pair `p`. */
  function Showing(d: Files, p: Installed): Files {
    match p.previous
    case None => d[Executable := p.executable] - {Previous}
    case Some(f) => d[Executable := p.executable][Previous := f]
  }

  function JournalFiles(d: Files): set<Name> {
    if HasJournal(d) then Listed(JournalOf(d)) + {Journal} else {}
  }

  /** What a recovery makes of a directory: the pair it stands for, and nothing left of an update. */
  function RecoveredFiles(d: Files): Files
    requires WellFormed(d)
  {
    Showing(d - JournalFiles(d), Logical(d))
  }

  lemma NothingElseChanged(a: Files, gone: set<Name>, p: Installed, b: Files)
    requires Beyond(a, {Executable, Previous} + gone, b) && gone !! b.Keys && gone !! {Executable, Previous}
    requires Executable in b && Visible(b) == p
    ensures b == Showing(a - gone, p)
  {
    var want := Showing(a - gone, p);
    assert forall n <- b :: n in want && want[n] == b[n];
    assert forall n <- want :: n in b;
  }

  /** A temporary file is left by a recovery exactly when it was there and the journal did not list it. */
  lemma TempIsLeftExactly(d: Files, n: Name)
    requires WellFormed(d) && n.Temp?
    ensures n in RecoveredFiles(d) <==> n in d && n !in JournalFiles(d)
    ensures n in RecoveredFiles(d) ==> RecoveredFiles(d)[n] == d[n]
  {
  }

  /** Without a journal there is nothing to recover. */
  lemma NothingToRecover(d: Files)
    requires WellFormed(d) && Journal !in d
    ensures RecoveredFiles(d) == d
  {
    assert d - {} == d;
  }

  /** Recovering a recovered directory changes nothing. */
  lemma RecoveryIsIdempotent(d: Files)
    requires WellFormed(d) && Legible(d)
    ensures Settled(RecoveredFiles(d), Logical(d)) && Journal !in RecoveredFiles(d)
    ensures RecoveredFiles(RecoveredFiles(d)) == RecoveredFiles(d)
  {
    assert Executable !in JournalFiles(d) && Previous !in JournalFiles(d);
    var r := RecoveredFiles(d);
    assert Journal !in r;
    assert r - {} == r;
  }

  /** `b` is `a` without some of the names in `gone`. */
  ghost predicate Without(a: Files, gone: seq<Name>, b: Files) {
    && (forall n <- b :: n in a && b[n] == a[n])
    && (forall n <- a :: n in b || n in gone)
  }

  /** Removing temporary files that were not there before the update began disturbs nothing. */
  lemma UndisturbedWithout(base: Files, a: Files, gone: seq<Name>, b: Files)
    requires WellFormed(base) && Undisturbed(base, a) && Without(a, gone, b)
    requires forall n <- gone :: n.Temp? && n !in base
    ensures Undisturbed(base, b)
  {
    assert Executable in b;
    assert HasJournal(b) <==> HasJournal(base);
    assert InProgress(b) ==> CanUndo(b, JournalOf(b));
  }

  lemma SettledWithoutTemps(a: Files, p: Installed, gone: seq<Name>, b: Files)
    requires Settled(a, p) && Without(a, gone, b) && forall n <- gone :: n.Temp?
    ensures Settled(b, p)
  {
    assert Executable in b;
    assert HasJournal(b) <==> HasJournal(a);
  }
}
