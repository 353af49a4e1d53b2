// Command::update and Recovery::run as one protocol over what survives a crash: the install tree and
// its backup, the journal, the database schema, the catalog generation, and the two lock files. Any
// number of updater and recovery processes run; each may die between any two steps.
module UpdateProtocol {
  import opened Options
  import opened Paths
  import opened InstallTree

  type Pid = nat

  const VERSION_FILE: Path := "backend/config/version.php"

  /** What the protocol does not compute itself: the version order, and what two packaged files say. */
  datatype World = World(newer: (string, string) -> bool, versionIn: Content -> string, filesIn: Content -> seq<Path>)

  datatype Release = Release(version: string, newFiles: seq<Path>, stage: Tree, schema: nat)

  datatype Phase = Prepared | Maintenance | Draining | BackingUp | Replacing | Migrating

  datatype Journal = Journal(phase: Phase, replacementStarted: bool, oldFiles: seq<Path>, newFiles: seq<Path>)

  /** Where an updater stands between writing the journal and removing it. */
  datatype Stage =
    | Journalled
    | Exclusive
    | Replace(todo: seq<Path>, from: Disk, done: nat)
    | Migrate
    | Migrated
    | Live

  datatype Process =
    | Started(known: string)
    | Locked(known: string)
    | Ready(known: string)
    | Picked(known: string, release: Release)
    | Verified(known: string, release: Release)
    | Updating(known: string, release: Release, plan: Plan, stage: Stage)
    | RecoveryLocked
    | Recovering(unlink: set<Path>, copy: set<Path>)
    | Finished

  /** `base`, `baseSchema` and `history` record the last committed package, its schema and all
      committed versions; `sound` says that every replacement begun since was of an undoable update. No
      step depends on them. */
  datatype State = State(
    disk: Disk, journal: Option<Journal>, schema: nat, generation: Option<nat>,
    lock: Option<Pid>, exclusive: Option<Pid>, readers: nat, processes: map<Pid, Process>,
    base: Tree, baseSchema: nat, history: seq<string>, sound: bool)

  function VersionOf(w: World, tree: Tree): Option<string>
  {
    if VERSION_FILE in tree then Some(w.versionIn(tree[VERSION_FILE])) else None
  }

  function OldFiles(w: World, tree: Tree): seq<Path>
  {
    if MANIFEST in tree then w.filesIn(tree[MANIFEST]) else []
  }

  function PlanFor(w: World, r: Release, tree: Tree): Plan
  {
    Plan(OldFiles(w, tree), r.newFiles, r.stage)
  }

  // ---------------------------------------------------------------- steps

  ghost predicate At(s: State, p: Pid, q: Process)
  {
    p in s.processes && s.processes[p] == q
  }

  function Move(s: State, p: Pid, q: Process): State
  {
    s.(processes := s.processes[p := q])
  }

  /** version() runs before the updater lock is taken. */
  ghost predicate ReadVersion(w: World, s: State, t: State, p: Pid)
  {
    p !in s.processes && VersionOf(w, s.disk.tree).Some?
    && t == Move(s, p, Started(VersionOf(w, s.disk.tree).value))
  }

  ghost predicate TakeLock(s: State, t: State, p: Pid, known: string)
  {
    At(s, p, Started(known)) && s.lock.None? && t == Move(s, p, Locked(known)).(lock := Some(p))
  }

  ghost predicate CheckJournal(s: State, t: State, p: Pid, known: string)
  {
    At(s, p, Locked(known)) && s.journal.None? && t == Move(s, p, Ready(known))
  }

  /** catalog() refuses an older generation and stores the new one. */
  ghost predicate FetchCatalog(s: State, t: State, p: Pid, known: string, generation: nat)
  {
    At(s, p, Ready(known)) && (s.generation.Some? ==> generation >= s.generation.value)
    && t == s.(generation := Some(generation))
  }

  /** release() refuses anything that is not newer than the version read at the start. */
  ghost predicate Pick(w: World, s: State, t: State, p: Pid, known: string, r: Release)
  {
    At(s, p, Ready(known)) && w.newer(r.version, known) && t == Move(s, p, Picked(known, r))
  }

  /** verifyWeb($version): the running application reports the version this process believes in. */
  ghost predicate VerifyRunning(w: World, s: State, t: State, p: Pid, known: string, r: Release)
  {
    At(s, p, Picked(known, r)) && VersionOf(w, s.disk.tree) == Some(known) && t == Move(s, p, Verified(known, r))
  }

  /** The first journal, with a fresh backup directory, once both manifests have been accepted. */
  ghost predicate WriteJournal(w: World, s: State, t: State, p: Pid, known: string, r: Release)
  {
    var plan := PlanFor(w, r, s.disk.tree);
    At(s, p, Verified(known, r)) && Accepted(plan)
    && t == Move(s, p, Updating(known, r, plan, Journalled)).(
              journal := Some(Journal(Prepared, false, JournalOld(plan, s.disk.tree), JournalNew(plan))),
              disk := s.disk.(backup := map[]))
  }

  ghost predicate EnterPhase(s: State, t: State, p: Pid, u: Process)
  {
    u.Updating? && u.stage.Journalled? && At(s, p, u) && s.journal.Some?
    && ((s.journal.value.phase == Prepared && t.journal == Some(s.journal.value.(phase := Maintenance)))
        || (s.journal.value.phase == Maintenance && t.journal == Some(s.journal.value.(phase := Draining))))
    && t == s.(journal := t.journal)
  }

  /** acquireExclusive: granted once no shared handle is held. */
  ghost predicate TakeGate(s: State, t: State, p: Pid, u: Process)
  {
    u.Updating? && u.stage.Journalled? && At(s, p, u)
    && s.journal.Some? && s.journal.value.phase == Draining && s.exclusive.None? && s.readers == 0
    && t == Move(s, p, u.(stage := Exclusive)).(exclusive := Some(p))
  }

  ghost predicate StartBackup(s: State, t: State, p: Pid, u: Process)
  {
    u.Updating? && u.stage.Exclusive? && At(s, p, u) && s.journal.Some? && s.journal.value.phase == Draining
    && t == s.(journal := Some(s.journal.value.(phase := BackingUp)))
  }

  ghost predicate StartReplacing(s: State, t: State, p: Pid, u: Process)
  {
    u.Updating? && u.stage.Exclusive? && At(s, p, u) && s.journal.Some? && s.journal.value.phase == BackingUp
    && t == Move(s, p, u.(stage := Replace(ReplacedPaths(u.plan), s.disk, 0))).(
              journal := Some(s.journal.value.(phase := Replacing, replacementStarted := true)),
              sound := s.sound && WellFormed(u.plan) && Undoable(u.plan, s.disk.tree))
  }

  /** One file operation of replace(). */
  ghost predicate ReplaceStep(s: State, t: State, p: Pid, u: Process)
  {
    u.Updating? && u.stage.Replace? && At(s, p, u) && u.stage.todo != []
    && var steps := PathSteps(u.plan, u.stage.from, u.stage.todo[0]);
       u.stage.done < |steps|
       && t == Move(s, p, u.(stage := u.stage.(done := u.stage.done + 1))).(
                 disk := Apply(u.plan.stage, s.disk, steps[u.stage.done]))
  }

  ghost predicate NextPath(s: State, t: State, p: Pid, u: Process)
  {
    u.Updating? && u.stage.Replace? && At(s, p, u) && u.stage.todo != []
    && u.stage.done == |PathSteps(u.plan, u.stage.from, u.stage.todo[0])|
    && t == Move(s, p, u.(stage := Replace(u.stage.todo[1..], s.disk, 0)))
  }

  ghost predicate StartMigrating(s: State, t: State, p: Pid, u: Process)
  {
    u.Updating? && u.stage.Replace? && u.stage.todo == [] && At(s, p, u) && s.journal.Some?
    && t == Move(s, p, u.(stage := Migrate)).(journal := Some(s.journal.value.(phase := Migrating)))
  }

  /** One migration; they may stop anywhere. */
  ghost predicate MigrateStep(s: State, t: State, p: Pid, u: Process, schema: nat)
  {
    u.Updating? && u.stage.Migrate? && At(s, p, u) && t == s.(schema := schema)
  }

  ghost predicate FinishMigrating(s: State, t: State, p: Pid, u: Process)
  {
    u.Updating? && u.stage.Migrate? && At(s, p, u) && s.schema == u.release.schema
    && t == Move(s, p, u.(stage := Migrated))
  }

  /** verifyWeb($release): the new build is what the application reports. */
  ghost predicate VerifyNew(w: World, s: State, t: State, p: Pid, u: Process)
  {
    u.Updating? && u.stage.Migrated? && At(s, p, u) && VersionOf(w, s.disk.tree) == Some(u.release.version)
    && t == Move(s, p, u.(stage := Live))
  }

  ghost predicate Commit(s: State, t: State, p: Pid, u: Process)
  {
    u.Updating? && u.stage.Live? && At(s, p, u)
    && t == Move(s, p, Finished).(journal := None, base := s.disk.tree, baseSchema := s.schema,
                                  history := s.history + [u.release.version], sound := true)
  }

  /** The lock, the gate and the process all vanish together: a crash, an exception or a normal end. */
  ghost predicate End(s: State, t: State, p: Pid)
  {
    p in s.processes
    && t == s.(processes := map q <- s.processes | q != p :: s.processes[q],
               lock := if s.lock == Some(p) then None else s.lock,
               exclusive := if s.exclusive == Some(p) then None else s.exclusive)
  }

  ghost predicate StartRecovery(s: State, t: State, p: Pid)
  {
    p !in s.processes && s.lock.None? && t == Move(s, p, RecoveryLocked).(lock := Some(p))
  }

  /** Recovery::run up to its first file operation, called on its own or by an update that failed
      before replacement started. It refuses the migrating phase. */
  ghost predicate BeginRecovery(s: State, t: State, p: Pid, q: Process)
  {
    At(s, p, q) && (q.RecoveryLocked? || (q.Updating? && (q.stage.Journalled? || q.stage.Exclusive?)))
    && s.journal.Some? && s.journal.value.phase != Migrating
    && var j := s.journal.value;
       t == Move(s, p, if j.replacementStarted then Recovering(Introduced(j.oldFiles, j.newFiles), s.disk.backup.Keys)
                       else Recovering({}, {}))
  }

  ghost predicate RecoverUnlink(s: State, t: State, p: Pid, q: Process, path: Path)
  {
    q.Recovering? && At(s, p, q) && path in q.unlink
    && t == Move(s, p, q.(unlink := q.unlink - {path})).(disk := s.disk.(tree := s.disk.tree - {path}))
  }

  ghost predicate RecoverCopy(s: State, t: State, p: Pid, q: Process, path: Path)
  {
    q.Recovering? && At(s, p, q) && q.unlink == {} && path in q.copy && path in s.disk.backup
    && t == Move(s, p, q.(copy := q.copy - {path})).(
              disk := s.disk.(tree := s.disk.tree[path := s.disk.backup[path]]))
  }

  ghost predicate FinishRecovery(s: State, t: State, p: Pid)
  {
    At(s, p, Recovering({}, {})) && t == Move(s, p, Finished).(journal := None)
  }

  /** Jobs, requests and cron work that hold the activity lock shared. */
  ghost predicate ReaderEnters(s: State, t: State)
  {
    s.exclusive.None? && t == s.(readers := s.readers + 1)
  }

  ghost predicate ReaderLeaves(s: State, t: State)
  {
    s.readers > 0 && t == s.(readers := s.readers - 1)
  }

  ghost predicate UpdaterStep(w: World, s: State, t: State, p: Pid)
  {
    ReadVersion(w, s, t, p)
    || (exists known :: TakeLock(s, t, p, known) || CheckJournal(s, t, p, known))
    || (exists known, generation :: FetchCatalog(s, t, p, known, generation))
    || (exists known, r :: Pick(w, s, t, p, known, r))
    || (exists known, r :: VerifyRunning(w, s, t, p, known, r))
    || (exists known, r :: WriteJournal(w, s, t, p, known, r))
    || (exists u :: EnterPhase(s, t, p, u) || TakeGate(s, t, p, u) || StartBackup(s, t, p, u) || StartReplacing(s, t, p, u))
    || (exists u :: ReplaceStep(s, t, p, u) || NextPath(s, t, p, u) || StartMigrating(s, t, p, u))
    || (exists u, schema :: MigrateStep(s, t, p, u, schema))
    || (exists u :: FinishMigrating(s, t, p, u) || VerifyNew(w, s, t, p, u) || Commit(s, t, p, u))
  }

  ghost predicate RecoveryAction(s: State, t: State, p: Pid)
  {
    StartRecovery(s, t, p) || (exists q :: BeginRecovery(s, t, p, q))
    || (exists q, path :: RecoverUnlink(s, t, p, q, path) || RecoverCopy(s, t, p, q, path))
    || FinishRecovery(s, t, p)
  }

  ghost predicate Next(w: World, s: State, t: State)
  {
    (exists p :: UpdaterStep(w, s, t, p) || RecoveryAction(s, t, p) || End(s, t, p))
    || ReaderEnters(s, t) || ReaderLeaves(s, t)
  }

  ghost predicate Init(w: World, s: State)
  {
    s.journal.None? && s.lock.None? && s.exclusive.None? && s.processes == map[]
    && s.base == s.disk.tree && s.baseSchema == s.schema && s.sound
    && VersionOf(w, s.base).Some? && s.history == [VersionOf(w, s.base).value]
  }

  // ---------------------------------------------------------------- the invariant

  ghost predicate LocksConsistent(s: State)
  {
    (forall p <- s.processes :: s.processes[p].Started? || s.lock == Some(p))
    && (s.exclusive.Some? ==> s.readers == 0 && s.lock == s.exclusive)
    && (s.lock.Some? ==> s.lock.value in s.processes)
  }

  /** The version file is the one of the committed package, or has a saved copy that is. */
  ghost predicate VersionKept(w: World, d: Disk, version: string)
  {
    if VERSION_FILE in d.backup then w.versionIn(d.backup[VERSION_FILE]) == version
    else VersionOf(w, d.tree) == Some(version)
  }

  /** The same for a disk that a recovery may have worked on: where nothing was saved, the file may
      also be gone. */
  ghost predicate VersionRestorable(w: World, d: Disk, version: string)
  {
    if VERSION_FILE in d.backup then w.versionIn(d.backup[VERSION_FILE]) == version
    else NoOtherVersion(w, d.tree, version)
  }

  ghost predicate NoOtherVersion(w: World, tree: Tree, version: string)
  {
    VersionOf(w, tree) == None || VersionOf(w, tree) == Some(version)
  }

  function Committed(s: State): string
  {
    if s.history == [] then "" else s.history[|s.history| - 1]
  }

  ghost predicate Unchanged(w: World, s: State)
  {
    s.schema == s.baseSchema && NoOtherVersion(w, s.disk.tree, Committed(s)) && (s.sound ==> SameCode(s.disk.tree, s.base))
  }

  /** What the journal on disk promises about the rest; about code, while updates were undoable. */
  ghost predicate JournalTruthful(w: World, s: State)
  {
    match s.journal
    case None => Unchanged(w, s)
    case Some(j) =>
      if !j.replacementStarted then Unchanged(w, s) && j.phase !in {Replacing, Migrating}
      else if j.phase == Migrating then true
      else
        j.phase == Replacing && s.schema == s.baseSchema && VersionRestorable(w, s.disk, Committed(s))
        && (s.sound ==> SameCode(Recovered(s.disk, Introduced(j.oldFiles, j.newFiles)), s.base))
  }

  ghost predicate HistoryIncreases(w: World, s: State)
  {
    s.history != [] && (forall i, j | 0 <= i && j == i + 1 && j < |s.history| :: w.newer(s.history[j], s.history[i]))
    && VersionOf(w, s.base) == Some(Committed(s))
  }

  /** The loop of replace() stands in the turn of todo[0], which began on disk `from`. */
  ghost predicate InTurn(plan: Plan, now: Disk, todo: seq<Path>, from: Disk, done: nat)
  {
    Distinct(todo)
    && if todo == [] then done == 0 && now == from
       else done <= |PathSteps(plan, from, todo[0])|
            && now == Run(plan.stage, from, PathSteps(plan, from, todo[0])[..done])
  }

  /** The turn of the version file is still to come, or its old content is saved. */
  ghost predicate VersionInTurn(w: World, from: Disk, todo: seq<Path>, version: string)
  {
    VersionKept(w, from, version) && (VERSION_FILE in from.backup ==> VERSION_FILE !in todo)
  }

  ghost predicate Replaceable(base: Tree, plan: Plan, todo: seq<Path>, from: Disk)
  {
    WellFormed(plan) && Undoable(plan, base)
    && (forall p <- todo :: p in ReplacedPaths(plan) && !IsTemporary(p)) && Between(plan, base, from, todo)
  }

  ghost predicate UpdateConsistent(w: World, s: State, p: Pid, u: Process)
    requires u.Updating?
  {
    w.newer(u.release.version, u.known) && u.known == Committed(s) && s.journal.Some?
    && u.plan.newFiles == u.release.newFiles && u.plan.stage == u.release.stage
    && (u.stage.Journalled? || s.exclusive == Some(p))
    && var j := s.journal.value;
       match u.stage
       case Journalled => j.phase in {Prepared, Maintenance, Draining} && Ahead(w, s, u, j)
       case Exclusive => j.phase in {Draining, BackingUp} && Ahead(w, s, u, j)
       case Replace(todo, from, done) =>
         j.phase == Replacing && j.replacementStarted && s.schema == s.baseSchema
         && InTurn(u.plan, s.disk, todo, from, done) && VersionInTurn(w, from, todo, u.known)
         && (WellFormed(u.plan) ==> (forall q <- todo :: q in ReplacedPaths(u.plan)) && Installed(u.plan, from.tree, todo))
         && (s.sound ==> j.oldFiles == JournalOld(u.plan, s.base) && j.newFiles == JournalNew(u.plan)
                         && Replaceable(s.base, u.plan, todo, from))
       case Migrate => Replaced(s, u, j)
       case Migrated => Replaced(s, u, j) && s.schema == u.release.schema
       case Live => Replaced(s, u, j) && s.schema == u.release.schema && VersionOf(w, s.disk.tree) == Some(u.release.version)
  }

  /** An update that has replaced all files. */
  ghost predicate Replaced(s: State, u: Process, j: Journal)
    requires u.Updating?
  {
    j.phase == Migrating && j.replacementStarted && (WellFormed(u.plan) ==> Installed(u.plan, s.disk.tree, []))
  }

  /** An update that has not yet begun to replace files. */
  ghost predicate Ahead(w: World, s: State, u: Process, j: Journal)
    requires u.Updating?
  {
    !j.replacementStarted && s.disk.backup == map[] && VersionOf(w, s.disk.tree) == Some(u.known)
    && j.oldFiles == JournalOld(u.plan, s.disk.tree) && j.newFiles == JournalNew(u.plan)
  }

  ghost predicate RecoveryConsistent(s: State, unlink: set<Path>, copy: set<Path>)
  {
    s.journal.Some? && s.journal.value.phase != Migrating
    && var j := s.journal.value;
       var introduced := Introduced(j.oldFiles, j.newFiles);
       if !j.replacementStarted then unlink == {} && copy == {}
       else
         unlink <= introduced && copy <= s.disk.backup.Keys
         && (unlink != {} ==> copy == s.disk.backup.Keys)
         && (forall p <- introduced - unlink :: p in s.disk.tree ==> p in s.disk.backup)
         && (forall p <- s.disk.backup.Keys - copy :: p in s.disk.tree && s.disk.tree[p] == s.disk.backup[p])
  }

  ghost predicate ProcessConsistent(w: World, s: State, p: Pid, q: Process)
  {
    match q
    case Ready(_) => s.journal.None?
    case Picked(known, r) => s.journal.None? && w.newer(r.version, known)
    case Verified(known, r) =>
      s.journal.None? && w.newer(r.version, known) && VersionOf(w, s.disk.tree) == Some(known)
    case Updating(_, _, _, _) => UpdateConsistent(w, s, p, q)
    case Recovering(unlink, copy) => RecoveryConsistent(s, unlink, copy)
    case _ => true
  }

  ghost predicate Inv(w: World, s: State)
  {
    LocksConsistent(s) && JournalTruthful(w, s) && HistoryIncreases(w, s)
    && forall p <- s.processes :: ProcessConsistent(w, s, p, s.processes[p])
  }

  // ---------------------------------------------------------------- every step keeps it

  lemma ConsistentAt(w: World, s: State, p: Pid)
    requires Inv(w, s) && p in s.processes
    ensures ProcessConsistent(w, s, p, s.processes[p])
  {
  }

  lemma OnlyHolder(s: State, p: Pid)
    requires LocksConsistent(s) && p in s.processes && !s.processes[p].Started?
    ensures s.lock == Some(p) && forall q <- s.processes | q != p :: s.processes[q].Started?
  {
  }

  /** Replacing the state of the one process that holds the lock. */
  lemma MoveKeeps(w: World, s: State, t: State, p: Pid, q: Process)
    requires LocksConsistent(s) && p in s.processes && !s.processes[p].Started?
    requires t.processes == s.processes[p := q] && t.lock == s.lock && ProcessConsistent(w, t, p, q)
    requires t.exclusive.Some? ==> t.readers == 0 && t.lock == t.exclusive
    requires JournalTruthful(w, t) && HistoryIncreases(w, t)
    ensures Inv(w, t)
  {
    OnlyHolder(s, p);
    forall r <- t.processes ensures ProcessConsistent(w, t, r, t.processes[r]) {
      if r != p {
        assert s.processes[r].Started?;
      }
    }
  }

  /** The same for an update that only writes the journal or the disk. */
  lemma UpdateKeeps(w: World, s: State, t: State, p: Pid, u: Process, v: Process)
    requires Inv(w, s) && At(s, p, u) && u.Updating? && v.Updating? && !v.stage.Journalled?
    requires t == s.(processes := s.processes[p := v], disk := t.disk, journal := t.journal) && s.exclusive == Some(p)
    requires UpdateConsistent(w, t, p, v) && JournalTruthful(w, t)
    ensures Inv(w, t)
  {
    MoveKeeps(w, s, t, p, v);
  }

  lemma VersionFileIsCode()
    ensures !IsTemporary(VERSION_FILE)
  {
    assert VERSION_FILE[|VERSION_FILE| - |TEMPORARY_SUFFIX|] != TEMPORARY_SUFFIX[0];
  }

  lemma SameVersion(w: World, a: Tree, b: Tree)
    requires SameCode(a, b)
    ensures VersionOf(w, a) == VersionOf(w, b)
  {
    VersionFileIsCode();
    assert SameAt(a, b, VERSION_FILE);
  }

  lemma SamePlan(plan: Plan, a: Tree, b: Tree)
    requires WellFormed(plan) && SameCode(a, b)
    ensures JournalOld(plan, a) == JournalOld(plan, b) && (Undoable(plan, a) <==> Undoable(plan, b))
  {
    SameManifest(plan, a, b);
    forall p <- JournalNew(plan) ensures p in a <==> p in b {
      assert SameAt(a, b, p);
    }
  }

  lemma SameManifest(plan: Plan, a: Tree, b: Tree)
    requires WellFormed(plan) && SameCode(a, b)
    ensures JournalOld(plan, a) == JournalOld(plan, b) && forall p <- JournalNew(plan) :: !IsTemporary(p)
  {
    ManifestIsSafe();
    assert SameAt(a, b, MANIFEST);
  }

  /** A process with no lock yet says nothing that has to hold. */
  lemma OthersKeep(w: World, s: State, t: State, p: Pid)
    requires Inv(w, s) && LocksConsistent(t)
    requires p in t.processes && t.processes == s.processes[p := t.processes[p]]
    requires t == s.(processes := t.processes, lock := t.lock) && ProcessConsistent(w, t, p, t.processes[p])
    ensures Inv(w, t)
  {
    forall q <- t.processes ensures ProcessConsistent(w, t, q, t.processes[q]) {
      if q != p {
        ConsistentAt(w, s, q);
      }
    }
  }

  lemma EntryKeepsInv(w: World, s: State, t: State, p: Pid)
    requires Inv(w, s)
    requires ReadVersion(w, s, t, p) || StartRecovery(s, t, p) || exists known :: TakeLock(s, t, p, known)
    ensures Inv(w, t)
  {
    OthersKeep(w, s, t, p);
  }

  lemma CheckJournalKeepsInv(w: World, s: State, t: State, p: Pid, known: string)
    requires Inv(w, s) && CheckJournal(s, t, p, known)
    ensures Inv(w, t)
  {
    MoveKeeps(w, s, t, p, Ready(known));
  }

  lemma FetchCatalogKeepsInv(w: World, s: State, t: State, p: Pid, known: string, generation: nat)
    requires Inv(w, s) && FetchCatalog(s, t, p, known, generation)
    ensures Inv(w, t)
  {
    ConsistentAt(w, s, p);
    assert t.processes == s.processes[p := Ready(known)];
    MoveKeeps(w, s, t, p, Ready(known));
  }

  lemma PickKeepsInv(w: World, s: State, t: State, p: Pid, known: string, r: Release)
    requires Inv(w, s) && (Pick(w, s, t, p, known, r) || VerifyRunning(w, s, t, p, known, r))
    ensures Inv(w, t)
  {
    ConsistentAt(w, s, p);
    MoveKeeps(w, s, t, p, t.processes[p]);
  }

  lemma WriteJournalKeepsInv(w: World, s: State, t: State, p: Pid, known: string, r: Release)
    requires Inv(w, s) && WriteJournal(w, s, t, p, known, r)
    ensures Inv(w, t)
  {
    ConsistentAt(w, s, p);
    MoveKeeps(w, s, t, p, t.processes[p]);
  }

  lemma PhaseStepsKeepInv(w: World, s: State, t: State, p: Pid, u: Process)
    requires Inv(w, s)
    requires EnterPhase(s, t, p, u) || TakeGate(s, t, p, u) || StartBackup(s, t, p, u)
    ensures Inv(w, t)
  {
    ConsistentAt(w, s, p);
    OnlyHolder(s, p);
    assert t.processes == s.processes[p := t.processes[p]];
    MoveKeeps(w, s, t, p, t.processes[p]);
  }

  lemma ReplacementStarts(base: Tree, d: Disk, plan: Plan)
    requires WellFormed(plan) && Undoable(plan, base) && SameCode(d.tree, base) && d.backup == map[]
    ensures Replaceable(base, plan, ReplacedPaths(plan), d)
    ensures SameCode(Recovered(d, Undo(plan, base)), base)
  {
    ReplacedPathsAreSafe(plan);
    BetweenRecovers(plan, base, d, ReplacedPaths(plan));
  }

  lemma NothingInstalled(plan: Plan, tree: Tree)
    ensures Installed(plan, tree, ReplacedPaths(plan))
  {
  }

  lemma StartOfTurn(plan: Plan, d: Disk, todo: seq<Path>)
    ensures todo != [] ==> Run(plan.stage, d, PathSteps(plan, d, todo[0])[..0]) == d
  {
  }

  lemma TurnContinues(plan: Plan, now: Disk, todo: seq<Path>, from: Disk, done: nat)
    requires InTurn(plan, now, todo, from, done) && todo != [] && done < |PathSteps(plan, from, todo[0])|
    ensures InTurn(plan, Apply(plan.stage, now, PathSteps(plan, from, todo[0])[done]), todo, from, done + 1)
  {
    RunOneMore(plan.stage, from, PathSteps(plan, from, todo[0]), done);
  }

  lemma RunOneMore(stage: Tree, d: Disk, steps: seq<Step>, done: nat)
    requires done < |steps|
    ensures Run(stage, d, steps[..done + 1]) == Apply(stage, Run(stage, d, steps[..done]), steps[done])
  {
    assert steps[..done + 1] == steps[..done] + [steps[done]];
    RunAppend(stage, d, steps[..done], [steps[done]]);
    RunOne(stage, Run(stage, d, steps[..done]), steps[done]);
  }

  lemma TurnSaves(plan: Plan, from: Disk, p: Path, done: nat)
    requires p in from.tree && 0 < done <= |PathSteps(plan, from, p)|
    ensures Run(plan.stage, from, PathSteps(plan, from, p)[..done]).backup == from.backup[p := from.tree[p]]
  {
    var steps := PathSteps(plan, from, p);
    assert steps[..done][0] == Save(p) && steps[..done][1..] == steps[1..done];
    RunKeepsBackup(plan.stage, Apply(plan.stage, from, Save(p)), steps[1..done]);
  }

  /** Whatever the manifests say, the version file is saved before it is replaced or dropped. */
  lemma TurnKeepsVersion(w: World, plan: Plan, now: Disk, todo: seq<Path>, from: Disk, done: nat, version: string)
    requires InTurn(plan, now, todo, from, done) && todo != [] && VersionInTurn(w, from, todo, version)
    ensures VersionKept(w, now, version)
    ensures done == |PathSteps(plan, from, todo[0])| ==> VersionInTurn(w, now, todo[1..], version)
  {
    var p, steps := todo[0], PathSteps(plan, from, todo[0]);
    VersionFileIsCode();
    RunKeepsOthers(plan.stage, from, steps[..done], p);
    assert p in todo;
    if p != VERSION_FILE {
      assert SameAt(now.tree, from.tree, VERSION_FILE) && SameAt(now.backup, from.backup, VERSION_FILE);
    } else if done > 0 {
      TurnSaves(plan, from, p, done);
    }
    assert VERSION_FILE in todo[1..] ==> VERSION_FILE in todo && VERSION_FILE != p;
  }

  lemma ReplacementRecovers(base: Tree, now: Disk, plan: Plan, todo: seq<Path>, from: Disk, done: nat)
    requires Replaceable(base, plan, todo, from) && todo != [] && InTurn(plan, now, todo, from, done)
    ensures SameCode(Recovered(now, Undo(plan, base)), base)
    ensures done == |PathSteps(plan, from, todo[0])| ==> Replaceable(base, plan, todo[1..], now)
  {
    TurnPrefix(plan, base, from, todo, done);
    assert forall q <- todo[1..] :: q in todo;
  }

  lemma RunOne(stage: Tree, d: Disk, step: Step)
    ensures Run(stage, d, [step]) == Apply(stage, d, step)
  {
    assert Run(stage, d, [step]) == Run(stage, Apply(stage, d, step), []) by { assert [step][1..] == []; }
  }

  lemma UpdateAt(w: World, s: State, p: Pid, u: Process)
    requires Inv(w, s) && At(s, p, u) && u.Updating?
    ensures UpdateConsistent(w, s, p, u)
  {
    ConsistentAt(w, s, p);
  }

  lemma StartReplacingKeepsInv(w: World, s: State, t: State, p: Pid, u: Process)
    requires Inv(w, s) && StartReplacing(s, t, p, u)
    ensures Inv(w, t)
  {
    UpdateAt(w, s, p, u);
    if t.sound {
      SamePlan(u.plan, s.disk.tree, s.base);
      ReplacementStarts(s.base, s.disk, u.plan);
    }
    NothingInstalled(u.plan, s.disk.tree);
    StartOfTurn(u.plan, s.disk, ReplacedPaths(u.plan));
    var v := u.(stage := Replace(ReplacedPaths(u.plan), s.disk, 0));
    assert t.processes == s.processes[p := v];
    MoveKeeps(w, s, t, p, v);
  }

  lemma StepConsistent(w: World, s: State, t: State, p: Pid, u: Process)
    requires ReplaceStep(s, t, p, u) && UpdateConsistent(w, s, p, u)
    ensures UpdateConsistent(w, t, p, t.processes[p]) && JournalTruthful(w, t)
  {
    StepInTurn(w, u.plan, s.base, s.disk, u.stage.todo, u.stage.from, u.stage.done, u.known);
  }

  lemma StepInTurn(w: World, plan: Plan, base: Tree, now: Disk, todo: seq<Path>, from: Disk, done: nat, version: string)
    requires InTurn(plan, now, todo, from, done) && todo != [] && done < |PathSteps(plan, from, todo[0])|
    requires VersionInTurn(w, from, todo, version)
    ensures var next := Apply(plan.stage, now, PathSteps(plan, from, todo[0])[done]);
            InTurn(plan, next, todo, from, done + 1) && VersionRestorable(w, next, version)
            && (Replaceable(base, plan, todo, from) ==> SameCode(Recovered(next, Undo(plan, base)), base))
  {
    var next := Apply(plan.stage, now, PathSteps(plan, from, todo[0])[done]);
    TurnContinues(plan, now, todo, from, done);
    TurnKeepsVersion(w, plan, next, todo, from, done + 1, version);
    if Replaceable(base, plan, todo, from) {
      ReplacementRecovers(base, next, plan, todo, from, done + 1);
    }
  }

  lemma ReplaceStepKeepsInv(w: World, s: State, t: State, p: Pid, u: Process)
    requires Inv(w, s) && ReplaceStep(s, t, p, u)
    ensures Inv(w, t)
  {
    UpdateAt(w, s, p, u);
    StepConsistent(w, s, t, p, u);
    UpdateKeeps(w, s, t, p, u, u.(stage := u.stage.(done := u.stage.done + 1)));
  }

  lemma NextConsistent(w: World, s: State, t: State, p: Pid, u: Process)
    requires NextPath(s, t, p, u) && UpdateConsistent(w, s, p, u) && JournalTruthful(w, s)
    ensures UpdateConsistent(w, t, p, t.processes[p]) && JournalTruthful(w, t)
  {
    var todo, from, done := u.stage.todo, u.stage.from, u.stage.done;
    TurnKeepsVersion(w, u.plan, s.disk, todo, from, done, u.known);
    if s.sound {
      ReplacementRecovers(s.base, s.disk, u.plan, todo, from, done);
    }
    if WellFormed(u.plan) {
      TurnInstalled(u.plan, s.disk, todo, from);
    }
    StartOfTurn(u.plan, s.disk, todo[1..]);
  }

  lemma TurnInstalled(plan: Plan, now: Disk, todo: seq<Path>, from: Disk)
    requires WellFormed(plan) && todo != [] && Installed(plan, from.tree, todo) && forall q <- todo :: q in ReplacedPaths(plan)
    requires InTurn(plan, now, todo, from, |PathSteps(plan, from, todo[0])|)
    ensures Installed(plan, now.tree, todo[1..]) && forall q <- todo[1..] :: q in ReplacedPaths(plan)
  {
    var steps := PathSteps(plan, from, todo[0]);
    assert steps[..|steps|] == steps;
    TurnInstalls(plan, from, todo);
  }

  lemma NextPathKeepsInv(w: World, s: State, t: State, p: Pid, u: Process)
    requires Inv(w, s) && NextPath(s, t, p, u)
    ensures Inv(w, t)
  {
    UpdateAt(w, s, p, u);
    NextConsistent(w, s, t, p, u);
    UpdateKeeps(w, s, t, p, u, u.(stage := Replace(u.stage.todo[1..], s.disk, 0)));
  }

  lemma MigratingConsistent(w: World, s: State, t: State, p: Pid, u: Process)
    requires StartMigrating(s, t, p, u) && UpdateConsistent(w, s, p, u)
    ensures UpdateConsistent(w, t, p, u.(stage := Migrate)) && JournalTruthful(w, t)
  {
  }

  lemma StartMigratingKeepsInv(w: World, s: State, t: State, p: Pid, u: Process)
    requires Inv(w, s) && StartMigrating(s, t, p, u)
    ensures Inv(w, t)
  {
    UpdateAt(w, s, p, u);
    MigratingConsistent(w, s, t, p, u);
    UpdateKeeps(w, s, t, p, u, u.(stage := Migrate));
  }

  lemma MigrateStepKeepsInv(w: World, s: State, t: State, p: Pid, u: Process, schema: nat)
    requires Inv(w, s) && MigrateStep(s, t, p, u, schema)
    ensures Inv(w, t)
  {
    ConsistentAt(w, s, p);
    assert t.processes == s.processes[p := u];
    MoveKeeps(w, s, t, p, u);
  }

  lemma VerificationKeepsInv(w: World, s: State, t: State, p: Pid, u: Process)
    requires Inv(w, s) && (FinishMigrating(s, t, p, u) || VerifyNew(w, s, t, p, u))
    ensures Inv(w, t)
  {
    ConsistentAt(w, s, p);
    MoveKeeps(w, s, t, p, t.processes[p]);
  }

  lemma CommitKeepsInv(w: World, s: State, t: State, p: Pid, u: Process)
    requires Inv(w, s) && Commit(s, t, p, u)
    ensures Inv(w, t)
  {
    ConsistentAt(w, s, p);
    MoveKeeps(w, s, t, p, Finished);
  }

  lemma BeginRecoveryKeepsInv(w: World, s: State, t: State, p: Pid, q: Process)
    requires Inv(w, s) && BeginRecovery(s, t, p, q)
    ensures Inv(w, t)
  {
    ConsistentAt(w, s, p);
    MoveKeeps(w, s, t, p, t.processes[p]);
  }

  lemma RecoverFileKeepsInv(w: World, s: State, t: State, p: Pid, q: Process, path: Path)
    requires Inv(w, s)
    requires RecoverUnlink(s, t, p, q, path) || RecoverCopy(s, t, p, q, path)
    ensures Inv(w, t)
  {
    ConsistentAt(w, s, p);
    var j := s.journal.value;
    RecoveryStepKeepsOutcome(Introduced(j.oldFiles, j.newFiles), s.disk, t.disk);
    MoveKeeps(w, s, t, p, t.processes[p]);
  }

  lemma FinishRecoveryKeepsInv(w: World, s: State, t: State, p: Pid)
    requires Inv(w, s) && FinishRecovery(s, t, p)
    ensures Inv(w, t) && s.schema == s.baseSchema && (s.sound ==> SameCode(t.disk.tree, s.base))
  {
    ConsistentAt(w, s, p);
    var j := s.journal.value;
    if j.replacementStarted {
      assert s.disk.tree == Recovered(s.disk, Introduced(j.oldFiles, j.newFiles));
    }
    MoveKeeps(w, s, t, p, Finished);
  }

  lemma EndKeepsInv(w: World, s: State, t: State, p: Pid)
    requires Inv(w, s) && End(s, t, p)
    ensures Inv(w, t)
  {
    forall q <- t.processes ensures ProcessConsistent(w, t, q, t.processes[q]) {
      ConsistentAt(w, s, q);
    }
  }

  lemma ReadersKeepInv(w: World, s: State, t: State)
    requires Inv(w, s) && (ReaderEnters(s, t) || ReaderLeaves(s, t))
    ensures Inv(w, t)
  {
    forall q <- t.processes ensures ProcessConsistent(w, t, q, t.processes[q]) {
      ConsistentAt(w, s, q);
    }
  }

  lemma UpdaterStepKeepsInv(w: World, s: State, t: State, p: Pid)
    requires Inv(w, s) && UpdaterStep(w, s, t, p)
    ensures Inv(w, t)
  {
    if known :| CheckJournal(s, t, p, known) {
      CheckJournalKeepsInv(w, s, t, p, known);
    } else if known, generation :| FetchCatalog(s, t, p, known, generation) {
      FetchCatalogKeepsInv(w, s, t, p, known, generation);
    } else if known, r :| Pick(w, s, t, p, known, r) || VerifyRunning(w, s, t, p, known, r) {
      PickKeepsInv(w, s, t, p, known, r);
    } else if known, r :| WriteJournal(w, s, t, p, known, r) {
      WriteJournalKeepsInv(w, s, t, p, known, r);
    } else if u :| EnterPhase(s, t, p, u) || TakeGate(s, t, p, u) || StartBackup(s, t, p, u) {
      PhaseStepsKeepInv(w, s, t, p, u);
    } else if u :| StartReplacing(s, t, p, u) {
      StartReplacingKeepsInv(w, s, t, p, u);
    } else if u :| ReplaceStep(s, t, p, u) {
      ReplaceStepKeepsInv(w, s, t, p, u);
    } else if u :| NextPath(s, t, p, u) {
      NextPathKeepsInv(w, s, t, p, u);
    } else if u :| StartMigrating(s, t, p, u) {
      StartMigratingKeepsInv(w, s, t, p, u);
    } else if u, schema :| MigrateStep(s, t, p, u, schema) {
      MigrateStepKeepsInv(w, s, t, p, u, schema);
    } else if u :| FinishMigrating(s, t, p, u) || VerifyNew(w, s, t, p, u) {
      VerificationKeepsInv(w, s, t, p, u);
    } else if u :| Commit(s, t, p, u) {
      CommitKeepsInv(w, s, t, p, u);
    } else {
      EntryKeepsInv(w, s, t, p);
    }
  }

  lemma RecoveryActionKeepsInv(w: World, s: State, t: State, p: Pid)
    requires Inv(w, s) && RecoveryAction(s, t, p)
    ensures Inv(w, t)
  {
    if q :| BeginRecovery(s, t, p, q) {
      BeginRecoveryKeepsInv(w, s, t, p, q);
    } else if q, path :| RecoverUnlink(s, t, p, q, path) || RecoverCopy(s, t, p, q, path) {
      RecoverFileKeepsInv(w, s, t, p, q, path);
    } else if FinishRecovery(s, t, p) {
      FinishRecoveryKeepsInv(w, s, t, p);
    } else {
      EntryKeepsInv(w, s, t, p);
    }
  }

  lemma NextKeepsInv(w: World, s: State, t: State)
    requires Inv(w, s) && Next(w, s, t)
    ensures Inv(w, t)
  {
    if p :| UpdaterStep(w, s, t, p) {
      UpdaterStepKeepsInv(w, s, t, p);
    } else if p :| RecoveryAction(s, t, p) {
      RecoveryActionKeepsInv(w, s, t, p);
    } else if p :| End(s, t, p) {
      EndKeepsInv(w, s, t, p);
    } else {
      ReadersKeepInv(w, s, t);
    }
  }

  // ---------------------------------------------------------------- main results

  ghost predicate IsRun(w: World, run: seq<State>)
  {
    run != [] && Init(w, run[0]) && forall i, j | 0 <= i && j == i + 1 && j < |run| :: Next(w, run[i], run[j])
  }

  lemma {:induction false} RunsKeepInv(w: World, run: seq<State>, i: nat)
    requires IsRun(w, run) && i < |run|
    ensures Inv(w, run[i])
  {
    if i > 0 {
      RunsKeepInv(w, run, i - 1);
      NextKeepsInv(w, run[i - 1], run[i]);
    }
  }

  /** Write-ahead safety, in every state of every run with crashes. The schema differs from the last
      committed one only while the journal is in its migrating phase, and no recovery runs then. While
      the updates whose replacement has begun were undoable, installed code differs from the last
      committed package only while the journal says that replacement has started, and then completing a
      recovery restores that package. */
  lemma WriteAheadSafety(w: World, run: seq<State>, i: nat)
    requires IsRun(w, run) && i < |run|
    ensures var s := run[i];
            && (s.schema != s.baseSchema ==> s.journal.Some? && s.journal.value.phase == Migrating)
            && (forall p <- s.processes | s.processes[p].Recovering? ::
                  s.journal.Some? && s.journal.value.phase != Migrating && s.schema == s.baseSchema)
            && (s.sound && !SameCode(s.disk.tree, s.base) ==> s.journal.Some? && s.journal.value.replacementStarted)
            && (s.sound && s.journal.Some? && s.journal.value.replacementStarted && s.journal.value.phase != Migrating ==>
                  SameCode(Recovered(s.disk, Introduced(s.journal.value.oldFiles, s.journal.value.newFiles)), s.base))
  {
    RunsKeepInv(w, run, i);
    forall p <- run[i].processes | run[i].processes[p].Recovering?
      ensures run[i].journal.Some? && run[i].journal.value.phase != Migrating
    {
      ConsistentAt(w, run[i], p);
    }
  }

  /** One process at a time past the lock, and nothing holds the activity gate shared while a process
      replaces files or migrates. */
  lemma UpdatesAreExclusive(w: World, run: seq<State>, i: nat)
    requires IsRun(w, run) && i < |run|
    ensures var s := run[i];
            && (forall p <- s.processes, q <- s.processes | !s.processes[p].Started? && !s.processes[q].Started? :: p == q)
            && (forall p <- s.processes | s.processes[p].Updating? && !s.processes[p].stage.Journalled? ::
                  s.exclusive == Some(p) && s.readers == 0)
  {
    RunsKeepInv(w, run, i);
    forall p <- run[i].processes | run[i].processes[p].Updating? && !run[i].processes[p].stage.Journalled?
      ensures run[i].exclusive == Some(p)
    {
      ConsistentAt(w, run[i], p);
    }
  }

  /** No update gets as far as choosing a release while a journal exists. */
  lemma NoUpdateOverJournal(w: World, run: seq<State>, i: nat, p: Pid)
    requires IsRun(w, run) && i < |run| && p in run[i].processes
    ensures var q := run[i].processes[p]; q.Ready? || q.Picked? || q.Verified? ==> run[i].journal.None?
  {
    RunsKeepInv(w, run, i);
    ConsistentAt(w, run[i], p);
  }

  ghost predicate GenerationAtMost(a: Option<nat>, b: Option<nat>)
  {
    a.Some? ==> b.Some? && a.value <= b.value
  }

  /** Committed versions only ever accumulate, and the stored catalog generation never decreases. */
  lemma NothingGoesBack(w: World, run: seq<State>, i: nat, j: nat)
    requires IsRun(w, run) && i <= j < |run|
    ensures run[i].history <= run[j].history && GenerationAtMost(run[i].generation, run[j].generation)
  {
    forall k, l | 0 <= k && l == k + 1 && l < |run| ensures Forward(run[k], run[l]) {
      StepForward(w, run[k], run[l]);
    }
    StepsForward(run, i, j);
  }

  lemma {:induction false} StepsForward(run: seq<State>, i: nat, j: nat)
    requires i <= j < |run| && forall k, l | 0 <= k && l == k + 1 && l < |run| :: Forward(run[k], run[l])
    ensures Forward(run[i], run[j])
  {
    if i < j {
      StepsForward(run, i, j - 1);
      ForwardTransitive(run[i], run[j - 1], run[j]);
    }
  }

  lemma ForwardTransitive(s: State, t: State, u: State)
    requires Forward(s, t) && Forward(t, u)
    ensures Forward(s, u)
  {
  }

  ghost predicate Forward(s: State, t: State)
  {
    s.history <= t.history && GenerationAtMost(s.generation, t.generation)
  }

  lemma StepForward(w: World, s: State, t: State)
    requires Next(w, s, t)
    ensures Forward(s, t)
  {
    if p :| UpdaterStep(w, s, t, p) {
      UpdaterForward(w, s, t, p);
    } else if p :| RecoveryAction(s, t, p) {
      RecoveryForward(s, t, p);
    }
  }

  lemma UpdaterForward(w: World, s: State, t: State, p: Pid)
    requires UpdaterStep(w, s, t, p)
    ensures Forward(s, t)
  {
    if known :| TakeLock(s, t, p, known) || CheckJournal(s, t, p, known) {
    } else if known, generation :| FetchCatalog(s, t, p, known, generation) {
    } else if known, r :| Pick(w, s, t, p, known, r) || VerifyRunning(w, s, t, p, known, r) {
    } else if known, r :| WriteJournal(w, s, t, p, known, r) {
    } else if u :| EnterPhase(s, t, p, u) || TakeGate(s, t, p, u) || StartBackup(s, t, p, u) || StartReplacing(s, t, p, u) {
    } else if u :| ReplaceStep(s, t, p, u) || NextPath(s, t, p, u) || StartMigrating(s, t, p, u) {
    } else if u, schema :| MigrateStep(s, t, p, u, schema) {
    } else if u :| FinishMigrating(s, t, p, u) || VerifyNew(w, s, t, p, u) || Commit(s, t, p, u) {
    }
  }

  lemma RecoveryForward(s: State, t: State, p: Pid)
    requires RecoveryAction(s, t, p)
    ensures Forward(s, t)
  {
    if q :| BeginRecovery(s, t, p, q) {
    } else if q, path :| RecoverUnlink(s, t, p, q, path) || RecoverCopy(s, t, p, q, path) {
    }
  }

  /** Every committed version is newer than the one it replaced, whatever the manifests of the updates
      say. Whenever no journal exists the installed version file says the last committed version or,
      unless the updates whose replacement has begun were undoable, is missing. */
  lemma EachCommitIsNewer(w: World, run: seq<State>, i: nat)
    requires IsRun(w, run) && i < |run|
    ensures var s := run[i];
            && s.history != []
            && (forall a, b | 0 <= a && b == a + 1 && b < |s.history| :: w.newer(s.history[b], s.history[a]))
            && (s.journal.None? && VersionOf(w, s.disk.tree).Some? ==> VersionOf(w, s.disk.tree).value == Committed(s))
            && (s.journal.None? && s.sound ==> VersionOf(w, s.disk.tree) == Some(Committed(s)))
  {
    RunsKeepInv(w, run, i);
    if run[i].journal.None? && run[i].sound {
      SameVersion(w, run[i].disk.tree, run[i].base);
    }
  }

  /** A version is committed only once its package is in place: the database has its schema, the version
      file says it, every unprotected file of a well-formed package is installed and none that only the
      old manifest lists is left, and no journal remains. */
  lemma CommittedIsInstalled(w: World, run: seq<State>, i: nat)
    requires IsRun(w, run) && i + 1 < |run| && run[i + 1].history != run[i].history
    ensures var s, t := run[i], run[i + 1];
            exists p <- s.processes | s.processes[p].Updating? :: var u := s.processes[p];
              && t.history == s.history + [u.release.version] && t.journal.None? && t.base == t.disk.tree
              && t.schema == t.baseSchema == u.release.schema && VersionOf(w, t.disk.tree) == Some(u.release.version)
              && (WellFormed(u.plan) ==>
                    (forall q <- u.release.newFiles + [MANIFEST] | !Protected(q) ::
                       q in t.disk.tree && q in u.release.stage && t.disk.tree[q] == u.release.stage[q])
                    && (forall q <- u.plan.oldFiles | q !in u.release.newFiles && q != MANIFEST && !Protected(q) :: q !in t.disk.tree))
  {
    var s, t := run[i], run[i + 1];
    RunsKeepInv(w, run, i);
    assert Next(w, s, t);
    var p, u := CommitStep(w, s, t);
    ConsistentAt(w, s, p);
  }

  lemma CommitStep(w: World, s: State, t: State) returns (p: Pid, u: Process)
    requires Next(w, s, t) && t.history != s.history
    ensures Commit(s, t, p, u)
  {
    if q :| UpdaterStep(w, s, t, q) {
      p := q;
      u := CommitOf(w, s, t, q);
    } else if q :| RecoveryAction(s, t, q) {
      RecoveryKeepsHistory(s, t, q);
    }
  }

  lemma RecoveryKeepsHistory(s: State, t: State, p: Pid)
    requires RecoveryAction(s, t, p)
    ensures t.history == s.history
  {
    if q :| BeginRecovery(s, t, p, q) {
    } else if q, path :| RecoverUnlink(s, t, p, q, path) || RecoverCopy(s, t, p, q, path) {
    }
  }

  lemma CommitOf(w: World, s: State, t: State, p: Pid) returns (u: Process)
    requires UpdaterStep(w, s, t, p) && t.history != s.history
    ensures Commit(s, t, p, u)
  {
    if known :| TakeLock(s, t, p, known) || CheckJournal(s, t, p, known) {
    } else if known, generation :| FetchCatalog(s, t, p, known, generation) {
    } else if known, r :| Pick(w, s, t, p, known, r) || VerifyRunning(w, s, t, p, known, r) {
    } else if known, r :| WriteJournal(w, s, t, p, known, r) {
    } else if v :| EnterPhase(s, t, p, v) || TakeGate(s, t, p, v) || StartBackup(s, t, p, v) || StartReplacing(s, t, p, v) {
    } else if v :| ReplaceStep(s, t, p, v) || NextPath(s, t, p, v) || StartMigrating(s, t, p, v) {
    } else if v, schema :| MigrateStep(s, t, p, v, schema) {
    } else {
      u :| FinishMigrating(s, t, p, u) || VerifyNew(w, s, t, p, u) || Commit(s, t, p, u);
    }
  }

  /** Ending a recovery leaves no journal, the committed schema and history and no other version than
      the committed one, and the committed code and version if the updates were undoable. */
  lemma RecoveryLeavesOldVersion(w: World, run: seq<State>, i: nat, p: Pid)
    requires IsRun(w, run) && i + 1 < |run| && FinishRecovery(run[i], run[i + 1], p)
    ensures run[i].journal.Some? && run[i + 1].journal.None?
    ensures run[i + 1].schema == run[i].baseSchema && run[i + 1].history == run[i].history != []
    ensures NoOtherVersion(w, run[i + 1].disk.tree, Committed(run[i]))
    ensures run[i].sound ==> SameCode(run[i + 1].disk.tree, run[i].base)
                             && VersionOf(w, run[i + 1].disk.tree) == Some(Committed(run[i]))
  {
    RunsKeepInv(w, run, i);
    ConsistentAt(w, run[i], p);
    FinishRecoveryKeepsInv(w, run[i], run[i + 1], p);
    if run[i].sound {
      SameVersion(w, run[i + 1].disk.tree, run[i].base);
    }
  }
}
