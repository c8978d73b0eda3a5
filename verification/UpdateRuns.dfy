/** Whole runs of the updater, and any number of runs cut short by crashes. */
module UpdateRuns {
  import opened Common
  import opened JournalModel
  import opened UpdateDirectory
  import opened SelfUpdate
  import opened Install

  /** What a run finds: the version it was built as, the version asked for if any, and the release
      that was resolved, downloaded and checked, if all of that succeeded. */
  datatype Situation = Situation(current: Version, asked: Option<Version>, release: Option<Request>)

  datatype RunResult = Rejected | Failed | AskedToRerun | AlreadyCurrent | Updated(version: Version)

  /** The executable, and the one the directory stands for, have modes that a run accepts. */
  ghost predicate SafeModes(d: Files)
    requires WellFormed(d)
  {
    TargetMode(d[Executable].mode) && TargetMode(Logical(d).executable.mode)
  }

  /** One state on the way from `a`: it stands for what `a` stands for, or for the update of it. */
  ghost predicate Step(a: Files, images: set<Content>, x: Files)
    requires WellFormed(a)
  {
    && WellFormed(x)
    && (Accepted(a) ==> Accepted(x))
    && (SafeModes(a) ==> SafeModes(x))
    && (Logical(x) == Logical(a) || exists u <- images :: Logical(x) == JournalModel.Updated(Logical(a), u))
    && (x[Executable] == a[Executable] || x[Executable] == Logical(a).executable || x[Executable].content in images)
  }

  ghost function Images(s: Situation): set<Content> {
    match s.release
    case None => {}
    case Some(q) => {q.image}
  }

  lemma InstallSteps(a: Files, q: Request, x: Files)
    requires WellFormed(a)
    requires Keeps(a, Whole(a, q.image), x)
             || (!InProgress(a) && Settled(x, JournalModel.Updated(Visible(a), q.image)))
    ensures Step(a, {q.image}, x)
  {
    assert q.image in {q.image};
  }

  /** The run is given a newer release, and was not asked for an older one. */
  predicate Upgrades(s: Situation) {
    && s.release.Some? && Older(s.current, s.release.value.targetVersion)
    && (s.asked.Some? ==> !Older(s.asked.value, s.current))
  }

  /** What a run that is not rejected may report: after undoing an update it stops, and otherwise the
      version that was found decides. */
  predicate Fitting(undone: bool, s: Situation, r: RunResult) {
    || r.Failed?
    || (if undone then r.AskedToRerun?
        else
          && s.release.Some?
          && if s.release.value.targetVersion == s.current then r.AlreadyCurrent?
             else Older(s.current, s.release.value.targetVersion) && r == RunResult.Updated(s.release.value.targetVersion))
  }

  /** What it reports when no operation fails, over a directory that recovers to `d`. */
  ghost predicate Expected(undone: bool, s: Situation, d: Files, r: RunResult) {
    && (undone ==> r.AskedToRerun?)
    && (!undone && s.release.Some? && s.release.value.targetVersion == s.current ==> r.AlreadyCurrent?)
    && (!undone && s.release.Some? && Older(s.current, s.release.value.targetVersion) && Updatable(d, s.release.value) ==> r.Updated?)
  }

  /** A run: check the executable, then recover and install under the update lock. */
  method Run(d: Directory, s: Situation) returns (r: RunResult)
    requires d.Valid() && WellFormed(d.files)
    modifies d
    ensures d.Valid() && old(d.states) <= d.states && old(d.clock) <= d.clock
    ensures forall x <- d.states :: x in old(d.states) || Step(old(d.files), Images(s), x)
    ensures Step(old(d.files), Images(s), d.files)
    ensures r.Rejected? ==> d.files == old(d.files)
    ensures r.Rejected? <==>
              || (s.asked.Some? && Older(s.asked.value, s.current))
              || !TargetMode(old(d.files)[Executable].mode)
              || old(d.clock) in d.faults
    ensures !r.Rejected? ==> Fitting(InProgress(old(d.files)), s, r)
    ensures !r.Rejected? && d.Calm(old(d.clock)) && Accepted(old(d.files)) ==>
              Expected(InProgress(old(d.files)), s, RecoveredFiles(old(d.files)), r)
    ensures !r.Updated? ==> Logical(d.files) == Logical(old(d.files))
    ensures r.Updated? ==> ShowsUpdate(s, Logical(old(d.files)), d.files)
    ensures r.AskedToRerun? ==> Settled(d.files, Logical(old(d.files)))
    ensures d.Calm(old(d.clock)) && Accepted(old(d.files)) && !r.Rejected? && s.release.None? ==>
              d.files == RecoveredFiles(old(d.files))
    ensures d.Calm(old(d.clock)) && Journal !in old(d.files) && TargetMode(old(d.files)[Executable].mode) && Upgrades(s)
            ==> CandidateSeen(old(d.files), d.states)
  {
    if s.asked.Some? && Older(s.asked.value, s.current) {
      return Rejected;
    }
    var target := ValidateTarget(d, Executable);
    if !target.Found? {
      return Rejected;
    }
    r := RecoverThenInstall(d, s);
  }

  /** The new image is in place at the old mode, the old executable is the previous one, and the new one
      names the version that was installed. */
  ghost predicate ShowsUpdate(s: Situation, was: Installed, d: Files) {
    && s.release.Some? && Settled(d, JournalModel.Updated(was, s.release.value.image))
    && d[Executable] == File(s.release.value.image, was.executable.mode)
    && Find(d, Previous) == Some(was.executable)
    && s.release.value.reports(d[Executable].content) == Some(s.release.value.targetVersion)
  }

  /** Under the update lock: recover, and install only if there was nothing to undo and the release is
      newer than the running build. */
  method RecoverThenInstall(d: Directory, s: Situation) returns (r: RunResult)
    requires d.Valid() && WellFormed(d.files)
    modifies d
    ensures d.Valid() && old(d.states) <= d.states && old(d.clock) <= d.clock
    ensures forall x <- d.states :: x in old(d.states) || Step(old(d.files), Images(s), x)
    ensures Step(old(d.files), Images(s), d.files)
    ensures !r.Rejected? && Fitting(InProgress(old(d.files)), s, r)
    ensures d.Calm(old(d.clock)) && Accepted(old(d.files)) ==>
              Expected(InProgress(old(d.files)), s, RecoveredFiles(old(d.files)), r)
    ensures !r.Updated? ==> Logical(d.files) == Logical(old(d.files))
    ensures r.Updated? ==> ShowsUpdate(s, Logical(old(d.files)), d.files)
    ensures r.AskedToRerun? ==> Settled(d.files, Logical(old(d.files)))
    ensures d.Calm(old(d.clock)) && Accepted(old(d.files)) && s.release.None? ==> d.files == RecoveredFiles(old(d.files))
    ensures d.Calm(old(d.clock)) && Journal !in old(d.files) && TargetMode(old(d.files)[Executable].mode)
            && s.release.Some? && Older(s.current, s.release.value.targetVersion)
            ==> CandidateSeen(old(d.files), d.states)
  {
    var recovery := RecoverInterruptedUpdate(d);
    if recovery.RecoveryFailed? {
      return Failed;
    }
    if Journal !in old(d.files) {
      NothingToRecover(old(d.files));
    }
    if recovery.Recovered? {
      return AskedToRerun;
    }
    if s.release.None? || Older(s.release.value.targetVersion, s.current) {
      return Failed;
    }
    if s.release.value.targetVersion == s.current {
      return AlreadyCurrent;
    }
    ghost var clean, seen := d.files, d.states;
    var q := s.release.value;
    var ok := InstallVerified(d, q);
    forall x | x in d.states && x !in seen
      ensures Step(old(d.files), Images(s), x)
    {
      InstallSteps(clean, q, x);
    }
    InstallSteps(clean, q, d.files);
    r := if ok then RunResult.Updated(q.targetVersion) else Failed;
  }

  // Crash schedules

  /** The pair after a list of updates, the latest last. */
  ghost function AfterAll(p: Installed, images: seq<Content>): Installed {
    if images == [] then p
    else JournalModel.Updated(AfterAll(p, images[..|images| - 1]), images[|images| - 1])
  }

  /** What any state of any run may look like: it stands for the starting pair after some whole
      number of updates, and its executable is a whole image. */
  ghost predicate Reached(start: Files, images: set<Content>, x: Files)
    requires WellFormed(start)
  {
    && WellFormed(x)
    && (Accepted(start) ==> Accepted(x))
    && (SafeModes(start) ==> SafeModes(x))
    && (exists done: seq<Content> :: (forall u <- done :: u in images) && Logical(x) == AfterAll(Logical(start), done))
    && WholeContent(start, images, x[Executable].content)
    && WholeContent(start, images, Logical(x).executable.content)
  }

  ghost predicate WholeContent(start: Files, images: set<Content>, c: Content)
    requires WellFormed(start)
  {
    c == start[Executable].content || c == Logical(start).executable.content || c in images
  }

  /** Reaching is kept by every step, so by every schedule of runs and crashes. */
  lemma ReachedThroughStep(start: Files, images: set<Content>, a: Files, more: set<Content>, x: Files)
    requires WellFormed(start) && Reached(start, images, a) && Step(a, more, x)
    ensures Reached(start, images + more, x)
  {
    var done: seq<Content> :| (forall u <- done :: u in images) && Logical(a) == AfterAll(Logical(start), done);
    if Logical(x) != Logical(a) {
      var u :| u in more && Logical(x) == JournalModel.Updated(Logical(a), u);
      assert (done + [u])[..|done + [u]| - 1] == done;
      assert Logical(x) == AfterAll(Logical(start), done + [u]);
    }
  }

  /** A run: what it finds, which of its file operations fail, and whether it dies on the way. */
  datatype Attempt = Attempt(situation: Situation, faults: set<nat>, crash: bool)

  ghost function AllImages(attempts: seq<Attempt>): set<Content> {
    if attempts == [] then {}
    else AllImages(attempts[..|attempts| - 1]) + Images(attempts[|attempts| - 1].situation)
  }

  /** What the caller of a run learns: nothing when the run died. */
  type Report = Option<RunResult>

  /** The update that took effect in a run, if one did, against what was reported: an update of the
      release the run was given, and, unless the run died, exactly when success was reported. */
  predicate Agree(a: Attempt, report: Report, effect: Option<Content>) {
    && (effect.Some? ==> a.situation.release.Some? && effect.value == a.situation.release.value.image)
    && (if a.crash then report.None? else report.Some? && (report.value.Updated? <==> effect.Some?))
  }

  /** The pair after the updates that took effect. */
  ghost function AfterEffects(p: Installed, effects: seq<Option<Content>>): Installed {
    if effects == [] then p
    else AfterEffect(AfterEffects(p, effects[..|effects| - 1]), effects[|effects| - 1])
  }

  ghost function AfterEffect(p: Installed, effect: Option<Content>): Installed {
    match effect
    case None => p
    case Some(u) => JournalModel.Updated(p, u)
  }

  lemma EffectOfStep(a: Files, s: Situation, x: Files) returns (effect: Option<Content>)
    requires WellFormed(a) && Step(a, Images(s), x)
    ensures Logical(x) == AfterEffect(Logical(a), effect)
    ensures effect.Some? ==> s.release.Some? && effect.value == s.release.value.image
    ensures Logical(x) == Logical(a) ==> effect.None?
  {
    if Logical(x) == Logical(a) {
      effect := None;
    } else {
      var u :| u in Images(s) && Logical(x) == JournalModel.Updated(Logical(a), u);
      effect := Some(u);
    }
  }

  /** One run from any reached state; a crash leaves the directory in any state of the run. */
  method Try(start: Files, ghost images: set<Content>, at: Files, a: Attempt)
    returns (next: Files, report: Report, ghost effect: Option<Content>, ghost seen: set<Files>)
    requires WellFormed(start) && Reached(start, images, at)
    ensures next in seen && forall x <- seen :: Reached(start, images + Images(a.situation), x)
    ensures WellFormed(next) && Agree(a, report, effect) && Logical(next) == AfterEffect(Logical(at), effect)
  {
    var d := new Directory(at, a.faults);
    var r := Run(d, a.situation);
    forall x | x in d.states
      ensures WellFormed(x) && Reached(start, images + Images(a.situation), x)
    {
      assert Step(at, Images(a.situation), x);
      ReachedThroughStep(start, images, at, Images(a.situation), x);
    }
    seen := d.states;
    if a.crash {
      next :| next in d.states;
      report := None;
      effect := EffectOfStep(at, a.situation, next);
    } else {
      next := d.files;
      report := Some(r);
      effect := if r.Updated? then Some(a.situation.release.value.image) else None;
    }
  }

  lemma ReachedWithMore(start: Files, images: set<Content>, more: set<Content>, x: Files)
    requires WellFormed(start) && Reached(start, images, x)
    ensures Reached(start, images + more, x)
  {
    assert Step(x, more, x);
    ReachedThroughStep(start, images, x, more, x);
  }

  /** The recovery that ends a schedule. */
  method Settle(start: Files, ghost images: set<Content>, at: Files, faults: set<nat>) returns (end: Files, ghost seen: set<Files>)
    requires WellFormed(start) && Reached(start, images, at)
    ensures end in seen && forall x <- seen :: Reached(start, images, x)
    ensures WellFormed(end) && Logical(end) == Logical(at)
    ensures faults == {} && Accepted(start) ==>
              Executable in end && Settled(end, Visible(end)) && Journal !in end
  {
    var d := new Directory(at, faults);
    var recovery := RecoverInterruptedUpdate(d);
    forall x | x in d.states
      ensures Reached(start, images, x)
    {
      assert Step(at, {}, x);
      ReachedThroughStep(start, images, at, {}, x);
      assert images + {} == images;
    }
    return d.files, d.states;
  }

  /** From any state that a schedule can reach, starting with safe modes, the next run passes its check of
      the executable: if nothing fails and it finds no release, it recovers. */
  method NextRunRecovers(start: Files, ghost images: set<Content>, at: Files, current: Version) returns (end: Files)
    requires WellFormed(start) && Reached(start, images, at) && Accepted(start) && SafeModes(start)
    ensures end == RecoveredFiles(at) && Settled(end, Logical(at)) && Journal !in end
  {
    var d := new Directory(at, {});
    var _ := Run(d, Situation(current, None, None));
    end := d.files;
    RecoveryIsIdempotent(at);
  }

  /** Plays any schedule of runs, each of which may fail anywhere and may die in any of the states
      it passes through, and then one recovery.  `visited` collects every state of the directory;
      all of them are `Reached`.  In the end the directory stands for the starting pair after exactly
      the updates in `effects`: one for each success that was reported, none for any other report,
      and none or one for a run that died.  If no operation of the last recovery fails, the
      directory also shows that pair, and has no journal. */
  method Survive(start: Files, attempts: seq<Attempt>, lastFaults: set<nat>)
    returns (end: Files, reports: seq<Report>, ghost effects: seq<Option<Content>>, ghost visited: set<Files>)
    requires WellFormed(start)
    ensures start in visited && end in visited
    ensures forall x <- visited :: Reached(start, AllImages(attempts), x)
    ensures |reports| == |effects| == |attempts|
    ensures forall i :: 0 <= i < |attempts| ==> Agree(attempts[i], reports[i], effects[i])
    ensures WellFormed(end) && Logical(end) == AfterEffects(Logical(start), effects)
    ensures lastFaults == {} && Accepted(start) ==>
              Journal !in end && Shows(end, AfterEffects(Logical(start), effects))
    ensures lastFaults == {} && Journal !in start ==>
              Journal !in end && Shows(end, AfterEffects(Installed(start[Executable], Find(start, Previous)), effects))
  {
    end, reports, effects, visited := start, [], [], {start};
    StartIsReached(start);
    for i := 0 to |attempts|
      invariant start in visited && end in visited
      invariant forall x <- visited :: Reached(start, AllImages(attempts[..i]), x)
      invariant |reports| == |effects| == i
      invariant forall j :: 0 <= j < i ==> Agree(attempts[j], reports[j], effects[j])
      invariant WellFormed(end) && Logical(end) == AfterEffects(Logical(start), effects)
    {
      assert attempts[..i + 1][..i] == attempts[..i];
      ghost var before := visited;
      var report;
      ghost var effect, seen;
      end, report, effect, seen := Try(start, AllImages(attempts[..i]), end, attempts[i]);
      AllReachedWithMore(start, AllImages(attempts[..i]), Images(attempts[i].situation), before);
      visited := visited + seen;
      reports := reports + [report];
      assert (effects + [effect])[..i] == effects;
      effects := effects + [effect];
    }
    assert attempts[..|attempts|] == attempts;
    ghost var seen;
    end, seen := Settle(start, AllImages(attempts), end, lastFaults);
    visited := visited + seen;
  }

  lemma StartIsReached(start: Files)
    requires WellFormed(start)
    ensures Reached(start, {}, start)
  {
    assert Logical(start) == AfterAll(Logical(start), []);
  }

  lemma AllReachedWithMore(start: Files, images: set<Content>, more: set<Content>, visited: set<Files>)
    requires WellFormed(start) && forall x <- visited :: Reached(start, images, x)
    ensures forall x <- visited :: Reached(start, images + more, x)
  {
    forall x | x in visited ensures Reached(start, images + more, x) {
      ReachedWithMore(start, images, more, x);
    }
  }

  ghost predicate Shows(d: Files, p: Installed) {
    Executable in d && Visible(d) == p
  }

  // Temporary files that no journal lists

  /** A run over a directory without temporary files that dies right after creating its staging file
      leaves that file behind, and a recovery in which nothing fails keeps it. */
  method StagingFileOutlivesRecovery(start: Files, s: Situation)
    returns (crashed: Files, end: Files, ghost stray: Name)
    requires WellFormed(start) && Journal !in start && forall n <- start :: !n.Temp?
    requires TargetMode(start[Executable].mode) && Upgrades(s)
    ensures Step(start, Images(s), crashed)
    ensures stray.Temp? && stray !in start && stray in crashed && stray !in JournalFiles(crashed)
    ensures end == RecoveredFiles(crashed) && stray in end
  {
    var d := new Directory(start, {});
    var _ := Run(d, s);
    var id: nat :| Temp(CandidateRole, id) !in start && WithCandidate(start, id) in d.states;
    stray := Temp(CandidateRole, id);
    crashed := WithCandidate(start, id);
    TempIsHarmless(start, stray, crashed);
    var again := new Directory(crashed, {});
    var _ := RecoverInterruptedUpdate(again);
    end := again.files;
    TempIsLeftExactly(crashed, stray);
  }
}
