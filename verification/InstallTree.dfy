// Command::replace and Recovery::run over the install tree: a release is copied in one path at a
// time, every path it touches is first saved to a backup, and recovery puts the backup back.
// Directories are left out: a tree maps the path of each regular file to its content.
module InstallTree {
  import opened Paths

  type Content = string
  type Tree = map<Path, Content>

  datatype Disk = Disk(tree: Tree, backup: Tree)

  /** The manifest keys of the installed package and of the new one, and the unpacked new package. */
  datatype Plan = Plan(oldFiles: seq<Path>, newFiles: seq<Path>, stage: Tree)

  /** What Package::manifest and Package::verify have established before replacement starts. */
  ghost predicate Accepted(plan: Plan)
  {
    (forall p <- plan.oldFiles + plan.newFiles :: SafePath(p))
    && (forall p <- plan.newFiles :: p in plan.stage) && MANIFEST in plan.stage
  }

  /** And the naming assumption that no packaged file looks like an installer temporary. */
  ghost predicate WellFormed(plan: Plan)
  {
    Accepted(plan) && forall p <- plan.oldFiles + plan.newFiles :: !IsTemporary(p)
  }

  // ---------------------------------------------------------------- replacement, step by step

  /** array_unique: the first of equal elements stays. */
  function Unique(s: seq<Path>): (r: seq<Path>)
    ensures forall p :: p in r <==> p in s
    ensures forall i, j :: 0 <= i < j < |r| ==> r[i] != r[j]
  {
    if s == [] then []
    else
      var shorter, last := Unique(s[..|s| - 1]), s[|s| - 1];
      assert s == s[..|s| - 1] + [last];
      if last in shorter then shorter else shorter + [last]
  }

  function ReplacedPaths(plan: Plan): seq<Path>
  {
    Unique(plan.oldFiles + plan.newFiles + [MANIFEST])
  }

  predicate Installs(plan: Plan, p: Path)
  {
    p in plan.newFiles || p == MANIFEST
  }

  /** The four file operations; each is one atomic step, before or after which the process may stop. */
  datatype Step = Save(path: Path) | Drop(path: Path) | CopyNew(path: Path) | MoveNew(path: Path)

  function Apply(stage: Tree, d: Disk, step: Step): Disk
  {
    var p := step.path;
    match step
    case Save(_) => if p in d.tree then d.(backup := d.backup[p := d.tree[p]]) else d
    case Drop(_) => d.(tree := d.tree - {p})
    case CopyNew(_) => if p in stage then d.(tree := d.tree[Temporary(p) := stage[p]]) else d
    case MoveNew(_) =>
      if Temporary(p) in d.tree then d.(tree := (d.tree - {Temporary(p)})[p := d.tree[Temporary(p)]]) else d
  }

  function Run(stage: Tree, d: Disk, steps: seq<Step>): Disk
    decreases |steps|
  {
    if steps == [] then d else Run(stage, Apply(stage, d, steps[0]), steps[1..])
  }

  lemma {:induction false} RunAppend(stage: Tree, d: Disk, a: seq<Step>, b: seq<Step>)
    ensures Run(stage, d, a + b) == Run(stage, Run(stage, d, a), b)
    decreases |a|
  {
    if a == [] {
      assert a + b == b;
    } else {
      assert (a + b)[1..] == a[1..] + b;
      RunAppend(stage, Apply(stage, d, a[0]), a[1..], b);
    }
  }

  /** The operations of one turn of the loop, which look at the tree as the turn starts. */
  function PathSteps(plan: Plan, d: Disk, p: Path): (steps: seq<Step>)
    ensures |steps| <= 3
  {
    if Protected(p) then []
    else
      (if p in d.tree then [Save(p)] else [])
      + (if Installs(plan, p) then [CopyNew(p), MoveNew(p)] else if p in d.tree then [Drop(p)] else [])
  }

  /** The paths the loop gets to; an unsafe one ends it with an exception. */
  function SafePrefix(paths: seq<Path>): seq<Path>
  {
    if paths == [] || !SafePath(paths[0]) then [] else [paths[0]] + SafePrefix(paths[1..])
  }

  lemma {:induction false} AllSafe(paths: seq<Path>)
    requires forall p <- paths :: SafePath(p)
    ensures SafePrefix(paths) == paths
  {
    if paths != [] {
      AllSafe(paths[1..]);
      assert [paths[0]] + paths[1..] == paths;
    }
  }

  /** All operations of the loop over the given paths. */
  function Program(plan: Plan, d: Disk, paths: seq<Path>): seq<Step>
    decreases |paths|
  {
    if paths == [] then []
    else
      var steps := PathSteps(plan, d, paths[0]);
      steps + Program(plan, Run(plan.stage, d, steps), paths[1..])
  }

  // ---------------------------------------------------------------- recovery

  function JournalOld(plan: Plan, tree: Tree): seq<Path>
  {
    plan.oldFiles + if MANIFEST in tree then [MANIFEST] else []
  }

  function JournalNew(plan: Plan): seq<Path>
  {
    plan.newFiles + [MANIFEST]
  }

  /** The journalled new paths that recovery unlinks: those the old package did not list. */
  function Introduced(oldFiles: seq<Path>, newFiles: seq<Path>): set<Path>
  {
    set p <- newFiles | p !in oldFiles
  }

  /** The tree a recovery leaves when nothing stops it: new paths unlinked, then the backup copied in. */
  function Recovered(d: Disk, introduced: set<Path>): Tree
  {
    d.tree - introduced + d.backup
  }

  // ---------------------------------------------------------------- comparing trees

  ghost predicate SameAt(a: Tree, b: Tree, p: Path)
  {
    (p in a <==> p in b) && (p in a && p in b ==> a[p] == b[p])
  }

  /** Equal up to files named like installer temporaries. */
  ghost predicate SameCode(a: Tree, b: Tree)
  {
    forall p :: !IsTemporary(p) ==> SameAt(a, b, p)
  }

  // ---------------------------------------------------------------- what every prefix keeps

  /** The condition on the tree and the two manifests that an update needs to be undoable: what only
      the new package lists must not exist yet, not even under a protected path, and what both list
      must exist unless replacement skips it. The manifest itself may be there or not, unless it is
      listed too. */
  ghost predicate Undoable(plan: Plan, tree: Tree)
  {
    (forall p <- plan.newFiles | p !in plan.oldFiles && p != MANIFEST :: p !in tree)
    && (forall p <- plan.oldFiles | (p in plan.newFiles || p == MANIFEST) && !Protected(p) :: p in tree)
  }

  /** Replacement has not reached p: the tree is as it was there, and there is nothing saved. */
  ghost predicate Untouched(base: Tree, d: Disk, p: Path)
  {
    SameAt(d.tree, base, p) && p !in d.backup
  }

  /** Replacement is through with p: new content in place or old content gone, and the old content saved. */
  ghost predicate Settled(plan: Plan, base: Tree, d: Disk, p: Path)
  {
    if Protected(p) then Untouched(base, d, p)
    else
      SameAt(d.backup, if p in base then base else map[], p)
      && (if Installs(plan, p) then p in plan.stage && p in d.tree && d.tree[p] == plan.stage[p] else p !in d.tree)
  }

  /** Every path still to come is untouched, every path that is not is settled or outside the plan. */
  ghost predicate Between(plan: Plan, base: Tree, d: Disk, todo: seq<Path>)
  {
    forall p | !IsTemporary(p) ::
      if p in ReplacedPaths(plan) && p !in todo then Settled(plan, base, d, p) else Untouched(base, d, p)
  }

  ghost predicate Distinct(s: seq<Path>)
  {
    forall i, j :: 0 <= i < j < |s| ==> s[i] != s[j]
  }

  ghost function Undo(plan: Plan, base: Tree): set<Path>
  {
    Introduced(JournalOld(plan, base), JournalNew(plan))
  }

  /** The only installer temporary that was not there before belongs to p. */
  ghost predicate OnlyLeftover(base: Tree, tree: Tree, p: Path)
  {
    forall t <- tree | IsTemporary(t) && t !in base :: t == Temporary(p)
  }

  ghost predicate NoLeftover(base: Tree, tree: Tree)
  {
    forall t <- tree | IsTemporary(t) :: t in base
  }

  lemma UntouchedRecovers(plan: Plan, base: Tree, d: Disk, p: Path)
    requires Undoable(plan, base) && Untouched(base, d, p)
    ensures SameAt(Recovered(d, Undo(plan, base)), base, p)
  {
  }

  lemma SettledRecovers(plan: Plan, base: Tree, d: Disk, p: Path)
    requires Undoable(plan, base) && p in ReplacedPaths(plan) && Settled(plan, base, d, p)
    ensures SameAt(Recovered(d, Undo(plan, base)), base, p)
  {
    if Installs(plan, p) {
      assert p in JournalNew(plan);
    }
  }

  ghost predicate OthersSame(before: Disk, after: Disk, p: Path)
  {
    forall q | q != p && !IsTemporary(q) :: SameAt(after.tree, before.tree, q) && SameAt(after.backup, before.backup, q)
  }

  lemma StepKeepsOthers(stage: Tree, d: Disk, step: Step)
    ensures OthersSame(d, Apply(stage, d, step), step.path)
  {
    TemporaryIsTemporary(step.path);
  }

  lemma {:induction false} RunKeepsOthers(stage: Tree, d: Disk, steps: seq<Step>, p: Path)
    requires forall step <- steps :: step.path == p
    ensures OthersSame(d, Run(stage, d, steps), p)
    decreases |steps|
  {
    if steps != [] {
      var e := Apply(stage, d, steps[0]);
      StepKeepsOthers(stage, d, steps[0]);
      RunKeepsOthers(stage, e, steps[1..], p);
      var f := Run(stage, d, steps);
      forall q | q != p && !IsTemporary(q)
        ensures SameAt(f.tree, d.tree, q) && SameAt(f.backup, d.backup, q)
      {
        assert SameAt(e.tree, d.tree, q) && SameAt(f.tree, e.tree, q);
        assert SameAt(e.backup, d.backup, q) && SameAt(f.backup, e.backup, q);
      }
    }
  }

  lemma {:induction false} RunLeavesOnly(stage: Tree, base: Tree, d: Disk, steps: seq<Step>, p: Path)
    requires forall step <- steps :: step.path == p
    requires !IsTemporary(p) && OnlyLeftover(base, d.tree, p)
    ensures OnlyLeftover(base, Run(stage, d, steps).tree, p)
    decreases |steps|
  {
    if steps != [] {
      RunLeavesOnly(stage, base, Apply(stage, d, steps[0]), steps[1..], p);
    }
  }

  /** Operations other than Save never touch the backup. */
  lemma {:induction false} RunKeepsBackup(stage: Tree, d: Disk, steps: seq<Step>)
    requires forall step <- steps :: !step.Save?
    ensures Run(stage, d, steps).backup == d.backup
    decreases |steps|
  {
    if steps != [] {
      RunKeepsBackup(stage, Apply(stage, d, steps[0]), steps[1..]);
    }
  }

  /** Within the turn of a path, either its content is saved before anything else happens to it, or
      there was none and recovery unlinks whatever has appeared. */
  lemma TurnRecovers(plan: Plan, base: Tree, d: Disk, p: Path, k: nat)
    requires p in ReplacedPaths(plan) && Untouched(base, d, p) && Undoable(plan, base)
    requires k <= |PathSteps(plan, d, p)|
    ensures SameAt(Recovered(Run(plan.stage, d, PathSteps(plan, d, p)[..k]), Undo(plan, base)), base, p)
  {
    var steps := PathSteps(plan, d, p);
    if k == 0 {
    } else if p in d.tree {
      assert steps[..k][0] == Save(p) && steps[..k][1..] == steps[1..k];
      RunKeepsBackup(plan.stage, Apply(plan.stage, d, Save(p)), steps[1..k]);
    } else {
      RunKeepsBackup(plan.stage, d, steps[..k]);
      assert p in JournalNew(plan);
    }
  }

  lemma InstallRun(stage: Tree, d: Disk, p: Path)
    requires p in stage && Temporary(p) != p
    ensures var e := Run(stage, d, [CopyNew(p), MoveNew(p)]);
            e.backup == d.backup && e.tree == (d.tree - {Temporary(p)})[p := stage[p]]
  {
    var c := Apply(stage, d, CopyNew(p));
    assert [CopyNew(p), MoveNew(p)][1..] == [MoveNew(p)];
    assert Run(stage, c, [MoveNew(p)]) == Run(stage, Apply(stage, c, MoveNew(p)), []) by {
      assert [MoveNew(p)][1..] == [];
    }
  }

  /** The tree has the files of the new package and none that only the old one lists, except where
      replacement still has to go. */
  ghost predicate Installed(plan: Plan, tree: Tree, todo: seq<Path>)
  {
    (forall p <- plan.newFiles + [MANIFEST] | p !in todo && !Protected(p) :: p in tree && p in plan.stage && tree[p] == plan.stage[p])
    && (forall p <- plan.oldFiles | p !in todo && p !in plan.newFiles && p != MANIFEST && !Protected(p) :: p !in tree)
  }

  ghost predicate Placed(plan: Plan, tree: Tree, p: Path)
  {
    if p in plan.newFiles || p == MANIFEST then p in tree && p in plan.stage && tree[p] == plan.stage[p] else p !in tree
  }

  /** A whole turn installs its path, whatever else is true of the disk. */
  lemma TurnPlaces(plan: Plan, d: Disk, p: Path)
    requires Installs(plan, p) ==> p in plan.stage
    requires !IsTemporary(p) && !Protected(p)
    ensures Placed(plan, Run(plan.stage, d, PathSteps(plan, d, p)).tree, p)
  {
    var e := d.(backup := d.backup - {p});
    TurnSettles(plan, d.tree, e, p);
    BackupIsWritten(plan.stage, d, e, PathSteps(plan, d, p));
    assert PathSteps(plan, e, p) == PathSteps(plan, d, p);
  }

  lemma TurnInstalls(plan: Plan, d: Disk, todo: seq<Path>)
    requires WellFormed(plan) && todo != [] && todo[0] in ReplacedPaths(plan) && Installed(plan, d.tree, todo)
    ensures Installed(plan, Run(plan.stage, d, PathSteps(plan, d, todo[0])).tree, todo[1..])
  {
    var p := todo[0];
    var e := Run(plan.stage, d, PathSteps(plan, d, p));
    ReplacedPathsAreSafe(plan);
    RunKeepsOthers(plan.stage, d, PathSteps(plan, d, p), p);
    if !Protected(p) {
      TurnPlaces(plan, d, p);
    }
    forall q | q in plan.oldFiles + plan.newFiles + [MANIFEST] && q !in todo[1..] && !Protected(q) ensures Placed(plan, e.tree, q) {
      assert q in ReplacedPaths(plan);
      if q != p {
        assert q !in todo && Placed(plan, d.tree, q) && SameAt(e.tree, d.tree, q);
      }
    }
    PlacedIsInstalled(plan, e.tree, todo[1..]);
  }

  lemma PlacedIsInstalled(plan: Plan, tree: Tree, todo: seq<Path>)
    requires forall q | q in plan.oldFiles + plan.newFiles + [MANIFEST] && q !in todo && !Protected(q) :: Placed(plan, tree, q)
    ensures Installed(plan, tree, todo)
  {
    forall q <- plan.newFiles + [MANIFEST] | q !in todo && !Protected(q)
      ensures q in tree && q in plan.stage && tree[q] == plan.stage[q]
    {
      assert q in plan.oldFiles + plan.newFiles + [MANIFEST];
    }
    forall q <- plan.oldFiles | q !in todo && q !in plan.newFiles && q != MANIFEST && !Protected(q) ensures q !in tree {
      assert q in plan.oldFiles + plan.newFiles + [MANIFEST];
    }
  }

  /** What the operations do to the tree does not depend on the backup. */
  lemma {:induction false} BackupIsWritten(stage: Tree, d: Disk, e: Disk, steps: seq<Step>)
    requires d.tree == e.tree
    ensures Run(stage, d, steps).tree == Run(stage, e, steps).tree
    decreases |steps|
  {
    if steps != [] {
      BackupIsWritten(stage, Apply(stage, d, steps[0]), Apply(stage, e, steps[0]), steps[1..]);
    }
  }

  lemma TurnSettles(plan: Plan, base: Tree, d: Disk, p: Path)
    requires Installs(plan, p) ==> p in plan.stage
    requires !IsTemporary(p) && Untouched(base, d, p)
    ensures Settled(plan, base, Run(plan.stage, d, PathSteps(plan, d, p)), p)
    ensures NoLeftover(base, d.tree) ==> NoLeftover(base, Run(plan.stage, d, PathSteps(plan, d, p)).tree)
  {
    TemporaryIsTemporary(p);
    if !Protected(p) {
      var saved := if p in d.tree then Apply(plan.stage, d, Save(p)) else d;
      var rest := if Installs(plan, p) then [CopyNew(p), MoveNew(p)] else if p in d.tree then [Drop(p)] else [];
      var steps := PathSteps(plan, d, p);
      if p in d.tree {
        assert steps == [Save(p)] + rest && steps[1..] == rest;
      } else {
        assert steps == rest;
      }
      assert Run(plan.stage, d, steps) == Run(plan.stage, saved, rest);
      if Installs(plan, p) {
        InstallRun(plan.stage, saved, p);
      } else if p in d.tree {
        assert [Drop(p)][1..] == [];
        assert Run(plan.stage, saved, [Drop(p)]) == Apply(plan.stage, saved, Drop(p));
      }
    }
  }

  /** One turn of the loop stopped after k of its operations: the package can be recovered throughout,
      and at the end of the turn its path is settled. */
  lemma TurnPrefix(plan: Plan, base: Tree, d: Disk, paths: seq<Path>, k: nat)
    requires paths != [] && Distinct(paths)
    requires paths[0] in ReplacedPaths(plan) && !IsTemporary(paths[0])
    requires Installs(plan, paths[0]) ==> paths[0] in plan.stage
    requires Between(plan, base, d, paths)
    requires k <= |PathSteps(plan, d, paths[0])|
    ensures var e := Run(plan.stage, d, PathSteps(plan, d, paths[0])[..k]);
            && (Undoable(plan, base) ==> SameCode(Recovered(e, Undo(plan, base)), base))
            && (k == |PathSteps(plan, d, paths[0])| ==> Between(plan, base, e, paths[1..]))
  {
    var p, steps := paths[0], PathSteps(plan, d, paths[0]);
    var e := Run(plan.stage, d, steps[..k]);
    assert p in paths;
    assert Untouched(base, d, p);
    RunKeepsOthers(plan.stage, d, steps[..k], p);
    if Undoable(plan, base) {
      TurnRecovers(plan, base, d, p, k);
      BetweenRecovers(plan, base, d, paths);
      OthersRecover(d, e, Undo(plan, base), base, p);
    }
    if k == |steps| {
      assert steps[..k] == steps;
      TurnSettles(plan, base, d, p);
      TurnKeepsBetween(plan, base, d, e, paths);
    }
  }

  lemma TurnLeftovers(plan: Plan, base: Tree, d: Disk, p: Path, k: nat)
    requires Installs(plan, p) ==> p in plan.stage
    requires !IsTemporary(p) && Untouched(base, d, p) && NoLeftover(base, d.tree)
    requires k <= |PathSteps(plan, d, p)|
    ensures var e := Run(plan.stage, d, PathSteps(plan, d, p)[..k]);
            OnlyLeftover(base, e.tree, p) && (k == |PathSteps(plan, d, p)| ==> NoLeftover(base, e.tree))
  {
    RunLeavesOnly(plan.stage, base, d, PathSteps(plan, d, p)[..k], p);
    if k == |PathSteps(plan, d, p)| {
      assert PathSteps(plan, d, p)[..k] == PathSteps(plan, d, p);
      TurnSettles(plan, base, d, p);
    }
  }

  /** A disk that replacement may be stopped on: recovery restores the package, and what it leaves
      besides is at most one temporary. */
  ghost predicate Stoppable(plan: Plan, base: Tree, d: Disk)
  {
    (Undoable(plan, base) ==> SameCode(Recovered(d, Undo(plan, base)), base))
    && (exists p :: OnlyLeftover(base, d.tree, p))
  }

  lemma {:induction false} ProgramPrefix(plan: Plan, base: Tree, d: Disk, paths: seq<Path>, k: nat)
    requires WellFormed(plan) && Distinct(paths)
    requires forall p <- paths :: p in ReplacedPaths(plan) && !IsTemporary(p)
    requires Between(plan, base, d, paths) && NoLeftover(base, d.tree)
    requires k <= |Program(plan, d, paths)|
    ensures var e := Run(plan.stage, d, Program(plan, d, paths)[..k]);
            && Stoppable(plan, base, e)
            && (k == |Program(plan, d, paths)| ==> Between(plan, base, e, []) && NoLeftover(base, e.tree))
    decreases |paths|
  {
    if paths == [] {
      assert OnlyLeftover(base, d.tree, MANIFEST);
      BetweenRecovers(plan, base, d, paths);
    } else {
      var steps := PathSteps(plan, d, paths[0]);
      var after := Run(plan.stage, d, steps);
      RunSplit(plan.stage, d, steps, Program(plan, after, paths[1..]), k);
      if k < |steps| {
        TurnIsStoppable(plan, base, d, paths, k);
      } else {
        WholeTurn(plan, base, d, paths);
        ProgramPrefix(plan, base, after, paths[1..], k - |steps|);
      }
    }
  }

  lemma WholeTurn(plan: Plan, base: Tree, d: Disk, paths: seq<Path>)
    requires WellFormed(plan) && paths != [] && Distinct(paths)
    requires forall p <- paths :: p in ReplacedPaths(plan) && !IsTemporary(p)
    requires Between(plan, base, d, paths) && NoLeftover(base, d.tree)
    ensures var after := Run(plan.stage, d, PathSteps(plan, d, paths[0]));
            Between(plan, base, after, paths[1..]) && NoLeftover(base, after.tree)
    ensures Distinct(paths[1..]) && forall p <- paths[1..] :: p in ReplacedPaths(plan) && !IsTemporary(p)
  {
    var steps := PathSteps(plan, d, paths[0]);
    assert steps[..|steps|] == steps;
    TurnIsStoppable(plan, base, d, paths, |steps|);
    assert forall p <- paths[1..] :: p in paths;
  }

  lemma RunSplit(stage: Tree, d: Disk, steps: seq<Step>, rest: seq<Step>, k: nat)
    requires k <= |steps + rest|
    ensures Run(stage, d, (steps + rest)[..k]) ==
              if k < |steps| then Run(stage, d, steps[..k]) else Run(stage, Run(stage, d, steps), rest[..k - |steps|])
  {
    if k < |steps| {
      assert (steps + rest)[..k] == steps[..k];
    } else {
      assert (steps + rest)[..k] == steps + rest[..k - |steps|];
      RunAppend(stage, d, steps, rest[..k - |steps|]);
    }
  }

  lemma TurnIsStoppable(plan: Plan, base: Tree, d: Disk, paths: seq<Path>, k: nat)
    requires paths != [] && Distinct(paths)
    requires paths[0] in ReplacedPaths(plan) && !IsTemporary(paths[0])
    requires Installs(plan, paths[0]) ==> paths[0] in plan.stage
    requires Between(plan, base, d, paths) && NoLeftover(base, d.tree)
    requires k <= |PathSteps(plan, d, paths[0])|
    ensures var e := Run(plan.stage, d, PathSteps(plan, d, paths[0])[..k]);
            && Stoppable(plan, base, e)
            && (k == |PathSteps(plan, d, paths[0])| ==> Between(plan, base, e, paths[1..]) && NoLeftover(base, e.tree))
  {
    assert paths[0] in paths;
    TurnPrefix(plan, base, d, paths, k);
    TurnLeftovers(plan, base, d, paths[0], k);
  }

  lemma BetweenRecovers(plan: Plan, base: Tree, d: Disk, todo: seq<Path>)
    requires Between(plan, base, d, todo)
    ensures Undoable(plan, base) ==> SameCode(Recovered(d, Undo(plan, base)), base)
  {
    if Undoable(plan, base) {
      forall p | !IsTemporary(p) ensures SameAt(Recovered(d, Undo(plan, base)), base, p) {
        if p in ReplacedPaths(plan) && p !in todo {
          SettledRecovers(plan, base, d, p);
        } else {
          UntouchedRecovers(plan, base, d, p);
        }
      }
    }
  }

  lemma OthersRecover(d: Disk, e: Disk, introduced: set<Path>, base: Tree, p: Path)
    requires SameCode(Recovered(d, introduced), base) && SameAt(Recovered(e, introduced), base, p)
    requires OthersSame(d, e, p)
    ensures SameCode(Recovered(e, introduced), base)
  {
    forall q | !IsTemporary(q) ensures SameAt(Recovered(e, introduced), base, q) {
      if q != p {
        assert SameAt(e.tree, d.tree, q) && SameAt(e.backup, d.backup, q);
        assert SameAt(Recovered(d, introduced), base, q);
      }
    }
  }

  lemma TurnKeepsBetween(plan: Plan, base: Tree, d: Disk, e: Disk, todo: seq<Path>)
    requires todo != [] && Distinct(todo) && todo[0] in ReplacedPaths(plan)
    requires Between(plan, base, d, todo) && Settled(plan, base, e, todo[0])
    requires OthersSame(d, e, todo[0])
    ensures Between(plan, base, e, todo[1..])
  {
    forall q | !IsTemporary(q)
      ensures if q in ReplacedPaths(plan) && q !in todo[1..] then Settled(plan, base, e, q) else Untouched(base, e, q)
    {
      if q != todo[0] {
        assert q in todo <==> q in todo[1..];
        assert SameAt(e.tree, d.tree, q) && SameAt(e.backup, d.backup, q);
      } else {
        assert q !in todo[1..];
      }
    }
  }

  // ---------------------------------------------------------------- main results

  /** The disk when replacement of the package in `tree` has stopped after k operations. */
  function StoppedAfter(plan: Plan, tree: Tree, k: nat): Disk
    requires k <= |FullProgram(plan, tree)|
  {
    Run(plan.stage, Disk(tree, map[]), FullProgram(plan, tree)[..k])
  }

  function FullProgram(plan: Plan, tree: Tree): seq<Step>
  {
    Program(plan, Disk(tree, map[]), SafePrefix(ReplacedPaths(plan)))
  }

  lemma ReplacedPathsAreSafe(plan: Plan)
    requires WellFormed(plan)
    ensures forall p <- ReplacedPaths(plan) :: !IsTemporary(p)
    ensures SafePrefix(ReplacedPaths(plan)) == ReplacedPaths(plan)
  {
    ManifestIsSafe();
    AllSafe(ReplacedPaths(plan));
  }

  lemma NothingTouched(plan: Plan, tree: Tree)
    ensures Between(plan, tree, Disk(tree, map[]), ReplacedPaths(plan)) && NoLeftover(tree, tree)
  {
  }

  lemma StoppedFacts(plan: Plan, tree: Tree, k: nat)
    requires WellFormed(plan) && k <= |FullProgram(plan, tree)|
    ensures var e := StoppedAfter(plan, tree, k);
            && Stoppable(plan, tree, e)
            && (k == |FullProgram(plan, tree)| ==> Between(plan, tree, e, []) && NoLeftover(tree, e.tree))
  {
    ReplacedPathsAreSafe(plan);
    NothingTouched(plan, tree);
    ProgramPrefix(plan, tree, Disk(tree, map[]), ReplacedPaths(plan), k);
  }

  /** Replacement that runs to its end has put exactly the new package in place of the old one: new
      files are installed, obsolete ones are gone, protected and foreign files are as they were, no
      temporary is left, and the backup holds the old content of every file it touched, no more. */
  lemma ReplaceInstalls(plan: Plan, tree: Tree)
    requires WellFormed(plan)
    ensures var e := StoppedAfter(plan, tree, |FullProgram(plan, tree)|);
            && (forall p <- plan.newFiles + [MANIFEST] | !Protected(p) :: p in e.tree && e.tree[p] == plan.stage[p])
            && (forall p <- plan.oldFiles | p !in plan.newFiles && p != MANIFEST && !Protected(p) :: p !in e.tree)
            && (forall p | !IsTemporary(p) && (Protected(p) || p !in plan.oldFiles + plan.newFiles + [MANIFEST]) ::
                  SameAt(e.tree, tree, p))
            && (forall t <- e.tree | IsTemporary(t) :: t in tree)
            && (forall p | !IsTemporary(p) ::
                  p in e.backup <==> p in tree && !Protected(p) && p in plan.oldFiles + plan.newFiles + [MANIFEST])
            && (forall p <- e.backup | !IsTemporary(p) :: p in tree && e.backup[p] == tree[p])
  {
    ReplacedPathsAreSafe(plan);
    StoppedFacts(plan, tree, |FullProgram(plan, tree)|);
    var e := StoppedAfter(plan, tree, |FullProgram(plan, tree)|);
    forall p <- plan.newFiles + [MANIFEST] | !Protected(p) ensures p in e.tree && e.tree[p] == plan.stage[p] {
      assert p in ReplacedPaths(plan) && Settled(plan, tree, e, p);
    }
    forall p <- plan.oldFiles | p !in plan.newFiles && p != MANIFEST && !Protected(p) ensures p !in e.tree {
      assert p in ReplacedPaths(plan) && Settled(plan, tree, e, p);
    }
    forall p | !IsTemporary(p) && (Protected(p) || p !in plan.oldFiles + plan.newFiles + [MANIFEST])
      ensures SameAt(e.tree, tree, p)
    {
      assert Settled(plan, tree, e, p) || Untouched(tree, e, p);
    }
    forall p | !IsTemporary(p)
      ensures p in e.backup <==> p in tree && !Protected(p) && p in plan.oldFiles + plan.newFiles + [MANIFEST]
      ensures p in e.backup ==> p in tree && e.backup[p] == tree[p]
    {
      assert if p in ReplacedPaths(plan) then Settled(plan, tree, e, p) else Untouched(tree, e, p);
    }
  }

  /** Crash safety, exactly: stop the replacement before any of its operations or after the last,
      run recovery, and the package files are what they were; this holds at every stopping point
      if and only if the update was undoable to begin with. */
  lemma CrashThenRecoverExactly(plan: Plan, tree: Tree)
    requires WellFormed(plan)
    ensures (forall k: nat | k <= |FullProgram(plan, tree)| ::
               SameCode(Recovered(StoppedAfter(plan, tree, k), Undo(plan, tree)), tree))
            <==> Undoable(plan, tree)
  {
    forall k: nat | k <= |FullProgram(plan, tree)| && Undoable(plan, tree)
      ensures SameCode(Recovered(StoppedAfter(plan, tree, k), Undo(plan, tree)), tree)
    {
      StoppedFacts(plan, tree, k);
    }
    if forall k: nat | k <= |FullProgram(plan, tree)| :: SameCode(Recovered(StoppedAfter(plan, tree, k), Undo(plan, tree)), tree) {
      EarlyStopNeeds(plan, tree);
      LateStopNeeds(plan, tree);
    }
  }

  lemma EarlyStopNeeds(plan: Plan, tree: Tree)
    requires WellFormed(plan) && SameCode(Recovered(StoppedAfter(plan, tree, 0), Undo(plan, tree)), tree)
    ensures forall p <- plan.newFiles | p !in plan.oldFiles && p != MANIFEST :: p !in tree
  {
    assert FullProgram(plan, tree)[..0] == [];
    assert StoppedAfter(plan, tree, 0) == Disk(tree, map[]);
    forall p <- plan.newFiles | p !in plan.oldFiles && p != MANIFEST ensures p !in tree {
      assert p in plan.oldFiles + plan.newFiles && p in Undo(plan, tree);
      assert SameAt(Recovered(StoppedAfter(plan, tree, 0), Undo(plan, tree)), tree, p);
    }
  }

  lemma LateStopNeeds(plan: Plan, tree: Tree)
    requires WellFormed(plan)
    requires SameCode(Recovered(StoppedAfter(plan, tree, |FullProgram(plan, tree)|), Undo(plan, tree)), tree)
    ensures forall p <- plan.oldFiles | (p in plan.newFiles || p == MANIFEST) && !Protected(p) :: p in tree
  {
    var e := StoppedAfter(plan, tree, |FullProgram(plan, tree)|);
    StoppedFacts(plan, tree, |FullProgram(plan, tree)|);
    ReplacedPathsAreSafe(plan);
    forall p <- plan.oldFiles | (p in plan.newFiles || p == MANIFEST) && !Protected(p) ensures p in tree {
      assert p in ReplacedPaths(plan) && Settled(plan, tree, e, p);
      assert p !in Undo(plan, tree);
      assert SameAt(Recovered(e, Undo(plan, tree)), tree, p);
    }
  }

  /** A file that only the new package lists and that is there before the update, here an environment
      file that replacement itself would not touch: recovery takes it away even if nothing was replaced. */
  lemma RecoveryUnlinksExistingFile(plan: Plan, tree: Tree, environment: Path)
    requires environment == "backend/.env"
    requires environment in tree && environment in plan.newFiles && environment !in plan.oldFiles
    ensures Protected(environment) && SafePath(environment) && !IsTemporary(environment)
    ensures environment !in Recovered(StoppedAfter(plan, tree, 0), Undo(plan, tree))
  {
    EnvironmentIsSafe(environment);
    assert FullProgram(plan, tree)[..0] == [];
    assert StoppedAfter(plan, tree, 0) == Disk(tree, map[]);
    assert environment[0] == 'b' && MANIFEST[0] == 'p';
  }

  /** Whenever it stops, at most one file is left that was not there before, a temporary. */
  lemma AtMostOneLeftover(plan: Plan, tree: Tree, k: nat)
    requires WellFormed(plan) && Undoable(plan, tree) && k <= |FullProgram(plan, tree)|
    ensures var after := Recovered(StoppedAfter(plan, tree, k), Undo(plan, tree));
            forall s, t | s in after && t in after && s !in tree && t !in tree :: s == t && IsTemporary(s)
  {
    ReplacedPathsAreSafe(plan);
    StoppedFacts(plan, tree, k);
    BackupHasNoTemporaries(plan, Disk(tree, map[]), ReplacedPaths(plan), k);
    var e := StoppedAfter(plan, tree, k);
    var after := Recovered(e, Undo(plan, tree));
    var p :| OnlyLeftover(tree, e.tree, p);
    forall s | s in after && s !in tree ensures IsTemporary(s) && s == Temporary(p) {
      assert !IsTemporary(s) ==> SameAt(after, tree, s);
    }
  }

  lemma {:induction false} BackupHasNoTemporaries(plan: Plan, d: Disk, paths: seq<Path>, k: nat)
    requires WellFormed(plan) && (forall p <- paths :: p in ReplacedPaths(plan))
    requires k <= |Program(plan, d, paths)|
    requires forall t <- d.backup :: !IsTemporary(t)
    ensures forall t <- Run(plan.stage, d, Program(plan, d, paths)[..k]).backup :: !IsTemporary(t)
  {
    ReplacedPathsAreSafe(plan);
    ProgramStaysOnPaths(plan, d, paths);
    SavesOnlyPaths(plan.stage, d, Program(plan, d, paths)[..k]);
  }

  lemma {:induction false} ProgramStaysOnPaths(plan: Plan, d: Disk, paths: seq<Path>)
    ensures forall step <- Program(plan, d, paths) :: step.path in paths
    decreases |paths|
  {
    if paths != [] {
      ProgramStaysOnPaths(plan, Run(plan.stage, d, PathSteps(plan, d, paths[0])), paths[1..]);
    }
  }

  lemma {:induction false} SavesOnlyPaths(stage: Tree, d: Disk, steps: seq<Step>)
    requires (forall step <- steps :: !IsTemporary(step.path)) && (forall t <- d.backup :: !IsTemporary(t))
    ensures forall t <- Run(stage, d, steps).backup :: !IsTemporary(t)
    decreases |steps|
  {
    if steps != [] {
      SavesOnlyPaths(stage, Apply(stage, d, steps[0]), steps[1..]);
    }
  }

  // ---------------------------------------------------------------- recovery can be interrupted

  /** One file operation of recovery: an introduced path is unlinked, or a saved file copied back. */
  ghost predicate RecoveryStep(introduced: set<Path>, before: Disk, after: Disk)
  {
    after.backup == before.backup
    && ((exists p <- introduced :: after.tree == before.tree - {p})
        || (exists p <- before.backup :: after.tree == before.tree[p := before.backup[p]]))
  }

  lemma RecoveryStepKeepsOutcome(introduced: set<Path>, before: Disk, after: Disk)
    requires RecoveryStep(introduced, before, after)
    ensures Recovered(after, introduced) == Recovered(before, introduced)
  {
  }

  /** Recovery is restartable: after any number of partial recoveries, each stopped anywhere and
      each visiting the backup in its own order, one complete recovery gives the tree that a single
      uninterrupted one would have given at the start. */
  lemma {:induction false} RecoveryIsRestartable(introduced: set<Path>, run: seq<Disk>)
    requires |run| > 0
    requires forall i, j | 0 <= i && j == i + 1 && j < |run| :: RecoveryStep(introduced, run[i], run[j])
    ensures Recovered(run[|run| - 1], introduced) == Recovered(run[0], introduced)
    ensures run[|run| - 1].backup == run[0].backup
  {
    if |run| > 1 {
      RecoveryIsRestartable(introduced, run[1..]);
      assert run[1..][|run| - 2] == run[|run| - 1];
      assert RecoveryStep(introduced, run[0], run[1]);
      RecoveryStepKeepsOutcome(introduced, run[0], run[1]);
    }
  }
}
