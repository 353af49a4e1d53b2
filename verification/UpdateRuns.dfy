// What the update protocol can do when nothing goes wrong: an update runs to its end, and any chain of
// updates, each to a newer version, is the history of a run.
module UpdateRuns {
  import opened Options
  import opened Paths
  import opened InstallTree
  import opened UpdateProtocol

  /** Steps that lead from one state to another. */
  ghost predicate Leads(w: World, path: seq<State>, s: State, t: State)
  {
    path != [] && path[0] == s && path[|path| - 1] == t
    && forall i, j | 0 <= i && j == i + 1 && j < |path| :: Next(w, path[i], path[j])
  }

  ghost predicate Reaches(w: World, s: State, t: State)
  {
    exists path :: Leads(w, path, s, t)
  }

  lemma Stays(w: World, s: State)
    ensures Reaches(w, s, s)
  {
    assert Leads(w, [s], s, s);
  }

  lemma Then(w: World, s: State, t: State, u: State)
    requires Reaches(w, s, t) && Reaches(w, t, u)
    ensures Reaches(w, s, u)
  {
    var a :| Leads(w, a, s, t);
    var b :| Leads(w, b, t, u);
    var path := a + b[1..];
    forall i, j | 0 <= i && j == i + 1 && j < |path| ensures Next(w, path[i], path[j]) {
      if j < |a| {
        assert Next(w, a[i], a[j]);
      } else {
        assert path[i] == b[i - |a| + 1] && path[j] == b[j - |a| + 1];
      }
    }
    assert Leads(w, path, s, u);
  }

  lemma ByStep(w: World, s: State, t: State, u: State, p: Pid)
    requires Reaches(w, s, t) && (UpdaterStep(w, t, u, p) || End(t, u, p))
    ensures Reaches(w, s, u)
  {
    assert Leads(w, [t, u], t, u);
    Then(w, s, t, u);
  }

  /** Nothing is under way. */
  ghost predicate Quiet(s: State)
  {
    s.journal.None? && s.lock.None? && s.exclusive.None? && s.readers == 0
  }

  lemma MovedTwice(s: State, p: Pid, a: Process, b: Process)
    ensures Move(Move(s, p, a), p, b) == Move(s, p, b)
  {
    assert s.processes[p := a][p := b] == s.processes[p := b];
  }

  // ---------------------------------------------------------------- one update

  /** Up to the journal. */
  lemma UpdateIsChosen(w: World, s: State, p: Pid, known: string, r: Release, generation: nat)
    requires Quiet(s) && p !in s.processes && VersionOf(w, s.disk.tree) == Some(known) && w.newer(r.version, known)
    requires s.generation.Some? ==> generation >= s.generation.value
    ensures Reaches(w, s, Move(s.(lock := Some(p), generation := Some(generation)), p, Verified(known, r)))
  {
    var locked := s.(lock := Some(p));
    var fetched := locked.(generation := Some(generation));
    Stays(w, s);
    ByStep(w, s, s, Move(s, p, Started(known)), p);
    MovedTwice(locked, p, Started(known), Locked(known));
    assert TakeLock(Move(s, p, Started(known)), Move(locked, p, Locked(known)), p, known);
    ByStep(w, s, Move(s, p, Started(known)), Move(locked, p, Locked(known)), p);
    MovedTwice(locked, p, Locked(known), Ready(known));
    assert CheckJournal(Move(locked, p, Locked(known)), Move(locked, p, Ready(known)), p, known);
    ByStep(w, s, Move(locked, p, Locked(known)), Move(locked, p, Ready(known)), p);
    assert FetchCatalog(Move(locked, p, Ready(known)), Move(fetched, p, Ready(known)), p, known, generation);
    ByStep(w, s, Move(locked, p, Ready(known)), Move(fetched, p, Ready(known)), p);
    MovedTwice(fetched, p, Ready(known), Picked(known, r));
    assert Pick(w, Move(fetched, p, Ready(known)), Move(fetched, p, Picked(known, r)), p, known, r);
    ByStep(w, s, Move(fetched, p, Ready(known)), Move(fetched, p, Picked(known, r)), p);
    MovedTwice(fetched, p, Picked(known, r), Verified(known, r));
    assert VerifyRunning(w, Move(fetched, p, Picked(known, r)), Move(fetched, p, Verified(known, r)), p, known, r);
    ByStep(w, s, Move(fetched, p, Picked(known, r)), Move(fetched, p, Verified(known, r)), p);
  }

  function JournalOf(s: State, plan: Plan, phase: Phase): Option<Journal>
  {
    Some(Journal(phase, phase == Replacing || phase == Migrating, JournalOld(plan, s.disk.tree), JournalNew(plan)))
  }

  /** From the journal to the first file operation. */
  lemma ReplacementBegins(w: World, s: State, p: Pid, known: string, r: Release)
    requires s.exclusive.None? && s.readers == 0 && Accepted(PlanFor(w, r, s.disk.tree))
    ensures var plan := PlanFor(w, r, s.disk.tree);
            var d := s.disk.(backup := map[]);
            Reaches(w, Move(s, p, Verified(known, r)),
                    Move(s.(disk := d, journal := JournalOf(s, plan, Replacing), exclusive := Some(p),
                            sound := s.sound && WellFormed(plan) && Undoable(plan, d.tree)),
                         p, Updating(known, r, plan, Replace(ReplacedPaths(plan), d, 0))))
  {
    var plan := PlanFor(w, r, s.disk.tree);
    var start := Move(s, p, Verified(known, r));
    var u := Updating(known, r, plan, Journalled);
    var entered := s.(disk := s.disk.(backup := map[]), journal := JournalOf(s, plan, Prepared));
    var maintained := entered.(journal := JournalOf(s, plan, Maintenance));
    var draining := entered.(journal := JournalOf(s, plan, Draining));
    Stays(w, start);
    MovedTwice(entered, p, Verified(known, r), u);
    assert WriteJournal(w, start, Move(entered, p, u), p, known, r);
    ByStep(w, start, start, Move(entered, p, u), p);
    assert EnterPhase(Move(entered, p, u), Move(maintained, p, u), p, u);
    ByStep(w, start, Move(entered, p, u), Move(maintained, p, u), p);
    assert EnterPhase(Move(maintained, p, u), Move(draining, p, u), p, u);
    ByStep(w, start, Move(maintained, p, u), Move(draining, p, u), p);
    BackupBegins(w, start, draining, s, p, u);
  }

  lemma BackupBegins(w: World, start: State, draining: State, s: State, p: Pid, u: Process)
    requires u.Updating? && u.stage.Journalled? && Reaches(w, start, Move(draining, p, u))
    requires draining == s.(disk := s.disk.(backup := map[]), journal := JournalOf(s, u.plan, Draining))
    requires s.exclusive.None? && s.readers == 0
    ensures Reaches(w, start,
                    Move(draining.(journal := JournalOf(s, u.plan, Replacing), exclusive := Some(p),
                                   sound := s.sound && WellFormed(u.plan) && Undoable(u.plan, s.disk.tree)),
                         p, u.(stage := Replace(ReplacedPaths(u.plan), draining.disk, 0))))
  {
    var v := u.(stage := Exclusive);
    var x := u.(stage := Replace(ReplacedPaths(u.plan), draining.disk, 0));
    var gated := draining.(exclusive := Some(p));
    var saving := gated.(journal := JournalOf(s, u.plan, BackingUp));
    var replacing := gated.(journal := JournalOf(s, u.plan, Replacing),
                            sound := s.sound && WellFormed(u.plan) && Undoable(u.plan, s.disk.tree));
    MovedTwice(gated, p, u, v);
    assert TakeGate(Move(draining, p, u), Move(gated, p, v), p, u);
    ByStep(w, start, Move(draining, p, u), Move(gated, p, v), p);
    assert StartBackup(Move(gated, p, v), Move(saving, p, v), p, v);
    ByStep(w, start, Move(gated, p, v), Move(saving, p, v), p);
    MovedTwice(replacing, p, v, x);
    assert StartReplacing(Move(saving, p, v), Move(replacing, p, x), p, v);
    ByStep(w, start, Move(saving, p, v), Move(replacing, p, x), p);
  }

  /** One turn of replace(). */
  lemma {:induction false} TurnRuns(w: World, s: State, p: Pid, u: Process, todo: seq<Path>, from: Disk, done: nat)
    requires u.Updating? && todo != [] && done <= |PathSteps(u.plan, from, todo[0])|
    requires s.disk == Run(u.plan.stage, from, PathSteps(u.plan, from, todo[0])[..done])
    ensures var steps := PathSteps(u.plan, from, todo[0]);
            Reaches(w, Move(s, p, u.(stage := Replace(todo, from, done))),
                    Move(s.(disk := Run(u.plan.stage, from, steps)), p, u.(stage := Replace(todo, from, |steps|))))
    decreases |PathSteps(u.plan, from, todo[0])| - done
  {
    var steps := PathSteps(u.plan, from, todo[0]);
    var start := Move(s, p, u.(stage := Replace(todo, from, done)));
    Stays(w, start);
    if done == |steps| {
      assert steps[..done] == steps;
    } else {
      var v := u.(stage := Replace(todo, from, done));
      var x := u.(stage := Replace(todo, from, done + 1));
      var next := s.(disk := Apply(u.plan.stage, s.disk, steps[done]));
      MovedTwice(next, p, v, x);
      assert ReplaceStep(start, Move(next, p, x), p, v);
      ByStep(w, start, start, Move(next, p, x), p);
      RunOneMore(u.plan.stage, from, steps, done);
      TurnRuns(w, next, p, u, todo, from, done + 1);
      Then(w, start, Move(next, p, x), Move(s.(disk := Run(u.plan.stage, from, steps)), p, u.(stage := Replace(todo, from, |steps|))));
    }
  }

  /** The whole loop of replace(): it ends where InstallTree's program ends. */
  lemma {:induction false} LoopRuns(w: World, s: State, p: Pid, u: Process, todo: seq<Path>)
    requires u.Updating?
    ensures var d := Run(u.plan.stage, s.disk, Program(u.plan, s.disk, todo));
            Reaches(w, Move(s, p, u.(stage := Replace(todo, s.disk, 0))), Move(s.(disk := d), p, u.(stage := Replace([], d, 0))))
    decreases |todo|
  {
    var start := Move(s, p, u.(stage := Replace(todo, s.disk, 0)));
    if todo == [] {
      Stays(w, start);
    } else {
      var steps := PathSteps(u.plan, s.disk, todo[0]);
      var next := s.(disk := Run(u.plan.stage, s.disk, steps));
      var v := u.(stage := Replace(todo, s.disk, |steps|));
      var x := u.(stage := Replace(todo[1..], next.disk, 0));
      assert steps[..0] == [];
      TurnRuns(w, s, p, u, todo, s.disk, 0);
      MovedTwice(next, p, v, x);
      assert NextPath(Move(next, p, v), Move(next, p, x), p, v);
      ByStep(w, start, Move(next, p, v), Move(next, p, x), p);
      LoopRuns(w, next, p, u, todo[1..]);
      var rest := Program(u.plan, next.disk, todo[1..]);
      RunAppend(u.plan.stage, s.disk, steps, rest);
      var d := Run(u.plan.stage, next.disk, rest);
      Then(w, start, Move(next, p, x), Move(s.(disk := d), p, u.(stage := Replace([], d, 0))));
    }
  }

  /** From the last file operation to the end of the process. */
  lemma UpdateEnds(w: World, s: State, p: Pid, u: Process)
    requires u.Updating? && u.stage == Replace([], s.disk, 0) && p !in s.processes && s.journal.Some?
    requires s.lock == Some(p) && s.exclusive == Some(p) && VersionOf(w, s.disk.tree) == Some(u.release.version)
    ensures Reaches(w, Move(s, p, u),
                    s.(journal := None, lock := None, exclusive := None, schema := u.release.schema, base := s.disk.tree,
                       baseSchema := u.release.schema, history := s.history + [u.release.version], sound := true))
  {
    var start := Move(s, p, u);
    var x := u.(stage := Migrate);
    var y := u.(stage := Migrated);
    var z := u.(stage := Live);
    var migrating := s.(journal := Some(s.journal.value.(phase := Migrating)));
    var migrated := migrating.(schema := u.release.schema);
    Stays(w, start);
    MovedTwice(migrating, p, u, x);
    assert StartMigrating(start, Move(migrating, p, x), p, u);
    ByStep(w, start, start, Move(migrating, p, x), p);
    assert MigrateStep(Move(migrating, p, x), Move(migrated, p, x), p, x, u.release.schema);
    ByStep(w, start, Move(migrating, p, x), Move(migrated, p, x), p);
    MovedTwice(migrated, p, x, y);
    assert FinishMigrating(Move(migrated, p, x), Move(migrated, p, y), p, x);
    ByStep(w, start, Move(migrated, p, x), Move(migrated, p, y), p);
    MovedTwice(migrated, p, y, z);
    assert VerifyNew(w, Move(migrated, p, y), Move(migrated, p, z), p, y);
    ByStep(w, start, Move(migrated, p, y), Move(migrated, p, z), p);
    UpdateCommits(w, start, migrated, p, z);
  }

  lemma UpdateCommits(w: World, start: State, s: State, p: Pid, z: Process)
    requires z.Updating? && z.stage.Live? && p !in s.processes && Reaches(w, start, Move(s, p, z))
    requires s.lock == Some(p) && s.exclusive == Some(p)
    ensures Reaches(w, start, s.(journal := None, lock := None, exclusive := None, base := s.disk.tree, baseSchema := s.schema,
                                 history := s.history + [z.release.version], sound := true))
  {
    var committed := s.(journal := None, base := s.disk.tree, baseSchema := s.schema,
                        history := s.history + [z.release.version], sound := true);
    MovedTwice(committed, p, z, Finished);
    assert Commit(Move(s, p, z), Move(committed, p, Finished), p, z);
    ByStep(w, start, Move(s, p, z), Move(committed, p, Finished), p);
    var ended := committed.(lock := None, exclusive := None);
    var all := s.processes[p := Finished];
    assert (map q <- all | q != p :: all[q]) == s.processes;
    assert End(Move(committed, p, Finished), ended, p);
    ByStep(w, start, Move(committed, p, Finished), ended, p);
  }

  lemma VersionFileNames(a: string, b: string, c: string)
    requires a == "backend" && b == "config" && c == "version.php"
    ensures Name(a) && Name(b) && Name(c) && a[0] != '.' && b[0] != '.'
  {
  }

  lemma VersionFileJoins(a: string, b: string, c: string)
    requires a == "backend" && b == "config" && c == "version.php"
    ensures VERSION_FILE == a + ['/'] + (b + ['/'] + c)
  {
  }

  lemma VersionFileIsUnprotected(p: Path)
    requires p == VERSION_FILE
    ensures !Protected(p)
  {
    assert p[8] == 'c' && p[|p| - 1] == 'p';
    assert "backend/storage/"[8] == 's' && "backend/database/"[8] == 'd';
  }

  lemma VersionFileIsReplaced()
    ensures !Protected(VERSION_FILE) && SafePath(VERSION_FILE)
  {
    var a, b, c := "backend", "config", "version.php";
    VersionFileNames(a, b, c);
    VersionFileJoins(a, b, c);
    ThreeNamesAreSafe(a, b, c);
    VersionFileIsUnprotected(VERSION_FILE);
  }

  /** What an update leaves: the package as replace() installs it, and everything else at rest. */
  function Updated(w: World, s: State, r: Release, generation: nat): State
  {
    var plan := PlanFor(w, r, s.disk.tree);
    var d := StoppedAfter(plan, s.disk.tree, |FullProgram(plan, s.disk.tree)|);
    s.(disk := d, schema := r.schema, generation := Some(generation), base := d.tree, baseSchema := r.schema,
       history := s.history + [r.version], sound := true)
  }

  /** A release as the catalog describes it: the package contains the version file, which says so. */
  ghost predicate SaysItsVersion(w: World, r: Release)
  {
    VERSION_FILE in r.newFiles && VERSION_FILE in r.stage && w.versionIn(r.stage[VERSION_FILE]) == r.version
  }

  /** When nothing is under way, an update to a newer release with well-formed manifests can run to its
      end, undoable or not. It installs every unprotected file of the package, removes those that only
      the old manifest lists, leaves all others as they were, and commits the version. */
  lemma UpdateCompletes(w: World, s: State, p: Pid, known: string, r: Release, generation: nat) returns (t: State)
    requires Quiet(s) && p !in s.processes && VersionOf(w, s.disk.tree) == Some(known) && w.newer(r.version, known)
    requires s.generation.Some? ==> generation >= s.generation.value
    requires WellFormed(PlanFor(w, r, s.disk.tree)) && SaysItsVersion(w, r)
    ensures Reaches(w, s, t) && Quiet(t) && t.processes == s.processes
    ensures t.history == s.history + [r.version] && t.schema == r.schema && t.generation == Some(generation)
    ensures VersionOf(w, t.disk.tree) == Some(r.version)
    ensures forall q <- r.newFiles + [MANIFEST] | !Protected(q) :: q in t.disk.tree && t.disk.tree[q] == r.stage[q]
    ensures forall q <- OldFiles(w, s.disk.tree) | q !in r.newFiles && q != MANIFEST && !Protected(q) :: q !in t.disk.tree
    ensures forall q | !IsTemporary(q) && (Protected(q) || q !in OldFiles(w, s.disk.tree) + r.newFiles + [MANIFEST]) ::
              SameAt(t.disk.tree, s.disk.tree, q)
  {
    UpdateRuns(w, s, p, known, r, generation);
    NewVersionInstalled(w, s, r, generation);
    ReplaceInstalls(PlanFor(w, r, s.disk.tree), s.disk.tree);
    t := Updated(w, s, r, generation);
  }

  lemma UpdateRuns(w: World, s: State, p: Pid, known: string, r: Release, generation: nat)
    requires Quiet(s) && p !in s.processes && VersionOf(w, s.disk.tree) == Some(known) && w.newer(r.version, known)
    requires s.generation.Some? ==> generation >= s.generation.value
    requires WellFormed(PlanFor(w, r, s.disk.tree)) && SaysItsVersion(w, r)
    ensures Reaches(w, s, Updated(w, s, r, generation))
  {
    var plan := PlanFor(w, r, s.disk.tree);
    var locked := s.(lock := Some(p), generation := Some(generation));
    var d := Disk(s.disk.tree, map[]);
    var begun := locked.(disk := d, journal := JournalOf(locked, plan, Replacing), exclusive := Some(p),
                         sound := s.sound && WellFormed(plan) && Undoable(plan, d.tree));
    var u := Updating(known, r, plan, Replace(ReplacedPaths(plan), d, 0));
    var done := begun.(disk := Updated(w, s, r, generation).disk);
    var v := u.(stage := Replace([], done.disk, 0));
    UpdateIsChosen(w, s, p, known, r, generation);
    ReplacementBegins(w, locked, p, known, r);
    LoopRuns(w, begun, p, u, ReplacedPaths(plan));
    FullProgramIsLoop(plan, s.disk.tree);
    NewVersionInstalled(w, s, r, generation);
    UpdateEnds(w, done, p, v);
    Then(w, s, Move(locked, p, Verified(known, r)), Move(begun, p, u));
    Then(w, s, Move(begun, p, u), Move(done, p, v));
    Then(w, s, Move(done, p, v), Updated(w, s, r, generation));
  }

  lemma FullProgramIsLoop(plan: Plan, tree: Tree)
    requires WellFormed(plan)
    ensures StoppedAfter(plan, tree, |FullProgram(plan, tree)|) ==
              Run(plan.stage, Disk(tree, map[]), Program(plan, Disk(tree, map[]), ReplacedPaths(plan)))
  {
    ReplacedPathsAreSafe(plan);
    assert FullProgram(plan, tree)[..|FullProgram(plan, tree)|] == FullProgram(plan, tree);
  }

  lemma NewVersionInstalled(w: World, s: State, r: Release, generation: nat)
    requires WellFormed(PlanFor(w, r, s.disk.tree)) && SaysItsVersion(w, r)
    ensures var tree := Updated(w, s, r, generation).disk.tree;
            VersionOf(w, tree) == Some(r.version) && MANIFEST in tree && tree[MANIFEST] == r.stage[MANIFEST]
  {
    var plan := PlanFor(w, r, s.disk.tree);
    VersionFileIsReplaced();
    ManifestIsReplaced();
    ReplaceInstalls(plan, s.disk.tree);
    assert VERSION_FILE in plan.newFiles + [MANIFEST] && MANIFEST in plan.newFiles + [MANIFEST];
  }

  lemma ManifestIsReplaced()
    ensures !Protected(MANIFEST)
  {
    assert MANIFEST[0] == 'p' && MANIFEST[|MANIFEST| - 1] != '\n';
    assert "backend/storage/"[0] == 'b' && "backend/database/"[0] == 'b' && "backend/.env"[0] == 'b';
  }

  // ---------------------------------------------------------------- one recovery

  lemma ByRecovery(w: World, s: State, t: State, u: State, p: Pid)
    requires Reaches(w, s, t) && RecoveryAction(t, u, p)
    ensures Reaches(w, s, u)
  {
    assert Leads(w, [t, u], t, u);
    Then(w, s, t, u);
  }

  lemma {:induction false} AllUnlinked(w: World, s: State, p: Pid, unlink: set<Path>, copy: set<Path>)
    ensures Reaches(w, Move(s, p, Recovering(unlink, copy)),
                    Move(s.(disk := s.disk.(tree := s.disk.tree - unlink)), p, Recovering({}, copy)))
    decreases unlink
  {
    var start := Move(s, p, Recovering(unlink, copy));
    Stays(w, start);
    if unlink == {} {
      assert s.disk.tree - unlink == s.disk.tree;
    } else {
      var path :| path in unlink;
      var next := s.(disk := s.disk.(tree := s.disk.tree - {path}));
      MovedTwice(next, p, Recovering(unlink, copy), Recovering(unlink - {path}, copy));
      assert RecoverUnlink(start, Move(next, p, Recovering(unlink - {path}, copy)), p, Recovering(unlink, copy), path);
      ByRecovery(w, start, start, Move(next, p, Recovering(unlink - {path}, copy)), p);
      AllUnlinked(w, next, p, unlink - {path}, copy);
      assert next.disk.tree - (unlink - {path}) == s.disk.tree - unlink;
      Then(w, start, Move(next, p, Recovering(unlink - {path}, copy)),
           Move(s.(disk := s.disk.(tree := s.disk.tree - unlink)), p, Recovering({}, copy)));
    }
  }

  function Copied(d: Disk, copy: set<Path>): Tree
    requires copy <= d.backup.Keys
  {
    d.tree + map path | path in copy :: d.backup[path]
  }

  lemma CopiedOneMore(d: Disk, copy: set<Path>, path: Path)
    requires copy <= d.backup.Keys && path in copy
    ensures Copied(d.(tree := d.tree[path := d.backup[path]]), copy - {path}) == Copied(d, copy)
  {
  }

  lemma {:induction false} AllCopied(w: World, s: State, p: Pid, copy: set<Path>)
    requires copy <= s.disk.backup.Keys
    ensures Reaches(w, Move(s, p, Recovering({}, copy)),
                    Move(s.(disk := s.disk.(tree := Copied(s.disk, copy))), p, Recovering({}, {})))
    decreases copy
  {
    var start := Move(s, p, Recovering({}, copy));
    Stays(w, start);
    if copy == {} {
      assert Copied(s.disk, copy) == s.disk.tree;
    } else {
      var path :| path in copy;
      var next := s.(disk := s.disk.(tree := s.disk.tree[path := s.disk.backup[path]]));
      MovedTwice(next, p, Recovering({}, copy), Recovering({}, copy - {path}));
      assert RecoverCopy(start, Move(next, p, Recovering({}, copy - {path})), p, Recovering({}, copy), path);
      ByRecovery(w, start, start, Move(next, p, Recovering({}, copy - {path})), p);
      AllCopied(w, next, p, copy - {path});
      CopiedOneMore(s.disk, copy, path);
      Then(w, start, Move(next, p, Recovering({}, copy - {path})),
           Move(s.(disk := s.disk.(tree := Copied(s.disk, copy))), p, Recovering({}, {})));
    }
  }

  /** What a recovery leaves on a disk under this journal. */
  function RolledBack(d: Disk, j: Journal): Disk
  {
    if j.replacementStarted then d.(tree := Recovered(d, Introduced(j.oldFiles, j.newFiles))) else d
  }

  lemma RecoveryRuns(w: World, s: State, p: Pid)
    requires s.lock.None? && s.exclusive.None? && p !in s.processes
    requires s.journal.Some? && s.journal.value.phase != Migrating
    ensures Reaches(w, s, s.(disk := RolledBack(s.disk, s.journal.value), journal := None))
  {
    var j, locked := s.journal.value, s.(lock := Some(p));
    var unlink := if j.replacementStarted then Introduced(j.oldFiles, j.newFiles) else {};
    var copy := if j.replacementStarted then s.disk.backup.Keys else {};
    var emptied := locked.(disk := s.disk.(tree := s.disk.tree - unlink));
    var done := locked.(disk := RolledBack(s.disk, j));
    RecoveryBegins(w, s, p, unlink, copy);
    AllUnlinked(w, locked, p, unlink, copy);
    Then(w, s, Move(locked, p, Recovering(unlink, copy)), Move(emptied, p, Recovering({}, copy)));
    AllCopied(w, emptied, p, copy);
    RolledBackByCopying(s.disk, j, unlink, copy);
    Then(w, s, Move(emptied, p, Recovering({}, copy)), Move(done, p, Recovering({}, {})));
    RecoveryEnds(w, s, done, p);
  }

  lemma RolledBackByCopying(d: Disk, j: Journal, unlink: set<Path>, copy: set<Path>)
    requires unlink == if j.replacementStarted then Introduced(j.oldFiles, j.newFiles) else {}
    requires copy == if j.replacementStarted then d.backup.Keys else {}
    ensures Copied(d.(tree := d.tree - unlink), copy) == RolledBack(d, j).tree
  {
  }

  lemma RecoveryBegins(w: World, s: State, p: Pid, unlink: set<Path>, copy: set<Path>)
    requires s.lock.None? && p !in s.processes && s.journal.Some? && s.journal.value.phase != Migrating
    requires unlink == if s.journal.value.replacementStarted then Introduced(s.journal.value.oldFiles, s.journal.value.newFiles) else {}
    requires copy == if s.journal.value.replacementStarted then s.disk.backup.Keys else {}
    ensures Reaches(w, s, Move(s.(lock := Some(p)), p, Recovering(unlink, copy)))
  {
    var locked := s.(lock := Some(p));
    Stays(w, s);
    assert StartRecovery(s, Move(locked, p, RecoveryLocked), p);
    ByRecovery(w, s, s, Move(locked, p, RecoveryLocked), p);
    MovedTwice(locked, p, RecoveryLocked, Recovering(unlink, copy));
    assert BeginRecovery(Move(locked, p, RecoveryLocked), Move(locked, p, Recovering(unlink, copy)), p, RecoveryLocked);
    ByRecovery(w, s, Move(locked, p, RecoveryLocked), Move(locked, p, Recovering(unlink, copy)), p);
  }

  lemma RecoveryEnds(w: World, s: State, done: State, p: Pid)
    requires Reaches(w, s, Move(done, p, Recovering({}, {}))) && done.lock == Some(p) && done.exclusive.None? && p !in done.processes
    ensures Reaches(w, s, done.(journal := None, lock := None))
  {
    var finished := done.(journal := None);
    MovedTwice(finished, p, Recovering({}, {}), Finished);
    assert FinishRecovery(Move(done, p, Recovering({}, {})), Move(finished, p, Finished), p);
    ByRecovery(w, s, Move(done, p, Recovering({}, {})), Move(finished, p, Finished), p);
    var all := done.processes[p := Finished];
    assert (map q <- all | q != p :: all[q]) == done.processes;
    assert End(Move(finished, p, Finished), finished.(lock := None), p);
    ByStep(w, s, Move(finished, p, Finished), finished.(lock := None), p);
  }

  /** Wherever the processes of a run have died, as long as no migration had begun, a recovery can run to
      its end: nothing bars the next update, schema, history and version are as committed, and so is the
      code if the updates were undoable. */
  lemma RecoveryCompletes(w: World, run: seq<State>, i: nat, p: Pid) returns (t: State)
    requires IsRun(w, run) && i < |run| && run[i].lock.None? && p !in run[i].processes
    requires run[i].journal.Some? && run[i].journal.value.phase != Migrating
    ensures Reaches(w, run[i], t) && t.journal.None? && t.lock.None? && t.exclusive.None? && t.processes == run[i].processes
    ensures t.schema == run[i].baseSchema && t.history == run[i].history && t.generation == run[i].generation
    ensures NoOtherVersion(w, t.disk.tree, Committed(run[i]))
    ensures run[i].sound ==> SameCode(t.disk.tree, run[i].base) && VersionOf(w, t.disk.tree) == Some(Committed(run[i]))
  {
    var s := run[i];
    RunsKeepInv(w, run, i);
    RecoveryRuns(w, s, p);
    t := s.(disk := RolledBack(s.disk, s.journal.value), journal := None);
    if s.sound {
      SameVersion(w, t.disk.tree, s.base);
    }
  }

  // ---------------------------------------------------------------- every climbing history

  /** Each entry is newer than the one before it. */
  ghost predicate Climbs(newer: (string, string) -> bool, history: seq<string>)
  {
    forall a, b | 0 <= a && b == a + 1 && b < |history| :: newer(history[b], history[a])
  }

  /** Contents to make packages of: for each version a file that says so, and a manifest. */
  datatype Contents = Contents(saying: string -> Content, listing: Content)

  /** The manifest lists the version file, and each file says its version. */
  ghost predicate Describes(w: World, k: Contents)
  {
    (forall v :: w.versionIn(k.saying(v)) == v) && w.filesIn(k.listing) == [VERSION_FILE]
  }

  function Package(k: Contents, version: string): Tree
  {
    map[VERSION_FILE := k.saying(version), MANIFEST := k.listing]
  }

  function Published(k: Contents, version: string): Release
  {
    Release(version, [VERSION_FILE], Package(k, version), 0)
  }

  lemma ManifestIsNotVersionFile()
    ensures VERSION_FILE != MANIFEST
  {
    assert VERSION_FILE[0] == 'b' && MANIFEST[0] == 'p';
  }

  lemma PublishedIsWellFormed(w: World, k: Contents, version: string, tree: Tree)
    requires Describes(w, k) && MANIFEST in tree && tree[MANIFEST] == k.listing
    ensures WellFormed(PlanFor(w, Published(k, version), tree)) && SaysItsVersion(w, Published(k, version))
    ensures Published(k, version).stage[MANIFEST] == k.listing
  {
    ManifestIsNotVersionFile();
    VersionFileIsReplaced();
    VersionFileIsCode();
    OneFileIsWellFormed(PlanFor(w, Published(k, version), tree), VERSION_FILE);
  }

  lemma OneFileIsWellFormed(plan: Plan, p: Path)
    requires plan.oldFiles == plan.newFiles == [p] && SafePath(p) && !IsTemporary(p)
    requires p in plan.stage && MANIFEST in plan.stage
    ensures WellFormed(plan)
  {
  }

  function Fresh(k: Contents, version: string): State
  {
    State(Disk(Package(k, version), map[]), None, 0, None, None, None, 0, map[], Package(k, version), 0, [version], true)
  }

  /** An installation at rest after these updates. */
  ghost predicate AtRest(w: World, k: Contents, s: State, history: seq<string>)
  {
    Quiet(s) && s.processes == map[] && s.history == history != []
    && VersionOf(w, s.disk.tree) == Some(history[|history| - 1])
    && MANIFEST in s.disk.tree && s.disk.tree[MANIFEST] == k.listing
  }

  lemma FreshIsAtRest(w: World, k: Contents, version: string)
    requires Describes(w, k)
    ensures Init(w, Fresh(k, version)) && AtRest(w, k, Fresh(k, version), [version])
  {
    ManifestIsNotVersionFile();
  }

  lemma OneMoreUpdate(w: World, k: Contents, s: State, history: seq<string>, version: string) returns (t: State)
    requires Describes(w, k) && AtRest(w, k, s, history) && w.newer(version, history[|history| - 1])
    ensures Reaches(w, s, t) && AtRest(w, k, t, history + [version])
  {
    var r := Published(k, version);
    var generation := match s.generation case None => 0 case Some(g) => g;
    PublishedIsWellFormed(w, k, version, s.disk.tree);
    ManifestIsReplaced();
    t := UpdateCompletes(w, s, 0, history[|history| - 1], r, generation);
    assert MANIFEST in r.newFiles + [MANIFEST];
  }

  lemma {:induction false} ClimbIsReached(w: World, k: Contents, history: seq<string>) returns (t: State)
    requires Describes(w, k) && history != [] && Climbs(w.newer, history)
    ensures Reaches(w, Fresh(k, history[0]), t) && AtRest(w, k, t, history)
  {
    var init, last := history[..|history| - 1], history[|history| - 1];
    if init == [] {
      t := Fresh(k, history[0]);
      Stays(w, t);
      FreshIsAtRest(w, k, history[0]);
      assert history == [history[0]];
    } else {
      var s := ClimbIsReached(w, k, init);
      assert w.newer(history[|history| - 1], history[|history| - 2]);
      t := OneMoreUpdate(w, k, s, init, last);
      Then(w, Fresh(k, history[0]), s, t);
      assert history == init + [last];
    }
  }

  lemma ClimbHasRun(w: World, k: Contents, history: seq<string>) returns (run: seq<State>)
    requires Describes(w, k) && history != [] && Climbs(w.newer, history)
    ensures IsRun(w, run) && run[|run| - 1].history == history
  {
    var t := ClimbIsReached(w, k, history);
    FreshIsAtRest(w, k, history[0]);
    run :| Leads(w, run, Fresh(k, history[0]), t);
  }

  /** Where packages for all versions can be had, the committed histories of all runs are exactly the
      climbing ones. */
  lemma HistoriesExactly(w: World, k: Contents, history: seq<string>)
    requires Describes(w, k)
    ensures (exists run: seq<State>, i: nat | IsRun(w, run) && i < |run| :: run[i].history == history)
            <==> history != [] && Climbs(w.newer, history)
  {
    if history != [] && Climbs(w.newer, history) {
      var run := ClimbHasRun(w, k, history);
    }
    if run: seq<State>, i: nat :| IsRun(w, run) && i < |run| && run[i].history == history {
      EachCommitIsNewer(w, run, i);
    }
  }
}
