// The updater's two loops over the files on disk, as the source runs them. `limit` is the number
// of file operations the process gets to perform before it dies or one of them fails.
module Installation {
  import opened Paths
  import opened InstallTree

  function Prefix(whole: seq<Step>, limit: nat): seq<Step>
  {
    if limit < |whole| then whole[..limit] else whole
  }

  /** The loop over `paths` has ended with `limit` operations at its disposal. */
  ghost predicate Outcome(plan: Plan, paths: seq<Path>, limit: nat, start: InstallTree.Disk, end: InstallTree.Disk, complete: bool)
  {
    var whole := Program(plan, start, SafePrefix(paths));
    end == Run(plan.stage, start, Prefix(whole, limit))
    && (complete <==> |whole| <= limit && AllSafe(paths))
  }

  ghost predicate AllSafe(paths: seq<Path>)
  {
    forall p <- paths :: SafePath(p)
  }

  class Installation {
    var tree: Tree
    var backup: Tree

    ghost function Disk(): InstallTree.Disk
      reads this
    {
      InstallTree.Disk(tree, backup)
    }

    method Perform(stage: Tree, step: Step)
      modifies this
      ensures Disk() == Apply(stage, old(Disk()), step)
    {
      var d := Apply(stage, InstallTree.Disk(tree, backup), step);
      tree, backup := d.tree, d.backup;
    }

    /** One turn of the loop in Command::replace. */
    method ReplacePath(plan: Plan, p: Path, limit: nat) returns (complete: bool, left: nat)
      modifies this
      ensures var steps := PathSteps(plan, old(Disk()), p);
              && Disk() == Run(plan.stage, old(Disk()), Prefix(steps, limit))
              && (complete <==> |steps| <= limit)
              && (complete ==> left == limit - |steps|)
    {
      ghost var start, steps := Disk(), PathSteps(plan, Disk(), p);
      ghost var taken: seq<Step> := [];
      left := limit;
      if Protected(p) { return true, left; }
      var present := p in tree;
      if present {
        if left == 0 { return false, left; }
        Extend(plan.stage, start, taken, Save(p));
        Perform(plan.stage, Save(p));
        taken, left := taken + [Save(p)], left - 1;
      }
      if !Installs(plan, p) {
        if present {
          if left == 0 { assert taken == Prefix(steps, limit); return false, left; }
          Extend(plan.stage, start, taken, Drop(p));
          Perform(plan.stage, Drop(p));
          taken, left := taken + [Drop(p)], left - 1;
        }
      } else {
        if left == 0 { assert taken == Prefix(steps, limit); return false, left; }
        Extend(plan.stage, start, taken, CopyNew(p));
        Perform(plan.stage, CopyNew(p));
        taken, left := taken + [CopyNew(p)], left - 1;
        if left == 0 { assert taken == Prefix(steps, limit); return false, left; }
        Extend(plan.stage, start, taken, MoveNew(p));
        Perform(plan.stage, MoveNew(p));
        taken, left := taken + [MoveNew(p)], left - 1;
      }
      assert taken == steps;
      complete := true;
    }

    /** Command::replace. However it ends, the disk is the outcome of a prefix of the operations that
        the whole loop consists of, so every result about such prefixes applies to it. */
    method Replace(plan: Plan, limit: nat) returns (complete: bool)
      modifies this
      ensures Outcome(plan, ReplacedPaths(plan), limit, old(Disk()), Disk(), complete)
      ensures WellFormed(plan) && old(backup) == map[] && Undoable(plan, old(tree)) ==>
                SameCode(Recovered(Disk(), Undo(plan, old(tree))), old(tree))
    {
      if WellFormed(plan) && backup == map[] {
        InterruptionIsUndone(plan, tree, limit);
      }
      complete := ReplacePaths(plan, ReplacedPaths(plan), limit);
    }

    method ReplacePaths(plan: Plan, paths: seq<Path>, limit: nat) returns (complete: bool)
      modifies this
      ensures Outcome(plan, paths, limit, old(Disk()), Disk(), complete)
    {
      ghost var start, taken: seq<Step> := Disk(), [];
      var left: nat := limit;
      var i := 0;
      ProgressStarts(plan, paths, limit, start);
      while i < |paths|
        invariant 0 <= i <= |paths|
        invariant Progress(plan, paths, limit, start, Disk(), taken, i, left)
      {
        ghost var before, leftBefore := Disk(), left;
        if !SafePath(paths[i]) {
          UnsafePathStops(plan, paths, limit, start, before, taken, i, left);
          return false;
        }
        var ok, remaining := ReplacePath(plan, paths[i], left);
        if !ok {
          LimitStops(plan, paths, limit, start, before, Disk(), taken, i, left);
          return false;
        }
        left := remaining;
        TurnProgresses(plan, paths, limit, start, before, Disk(), taken, i, leftBefore, left);
        taken := taken + PathSteps(plan, before, paths[i]);
        i := i + 1;
      }
      ProgressEnds(plan, paths, limit, start, Disk(), taken, left);
      complete := true;
    }

    /** The file operations of Recovery::run; the directory iterator's order is unknown. A stopped
        recovery has not changed what a complete one leads to, and a complete one has got there. */
    method Recover(oldFiles: seq<Path>, newFiles: seq<Path>, limit: nat) returns (complete: bool)
      modifies this
      ensures backup == old(backup)
      ensures var introduced := Introduced(oldFiles, newFiles);
              && Recovered(Disk(), introduced) == Recovered(old(Disk()), introduced)
              && (complete ==> tree == Recovered(old(Disk()), introduced))
    {
      ghost var introduced := Introduced(oldFiles, newFiles);
      ghost var start := Disk();
      var left: nat := limit;
      var i := 0;
      while i < |newFiles|
        invariant 0 <= i <= |newFiles| && backup == start.backup
        invariant Recovered(Disk(), introduced) == Recovered(start, introduced)
        invariant forall p <- newFiles[..i] :: p in introduced ==> p !in tree
      {
        var p := newFiles[i];
        if p !in oldFiles && p in tree {
          if left == 0 { return false; }
          UnlinkKeepsOutcome(Disk(), introduced, p);
          tree, left := tree - {p}, left - 1;
        }
        i := i + 1;
      }
      var unvisited := backup.Keys;
      while unvisited != {}
        invariant unvisited <= backup.Keys && backup == start.backup
        invariant Recovered(Disk(), introduced) == Recovered(start, introduced)
        invariant forall p <- introduced :: p in tree ==> p in backup
        invariant forall p <- backup :: p !in unvisited ==> p in tree && tree[p] == backup[p]
      {
        var p :| p in unvisited;
        if left == 0 { return false; }
        CopyKeepsOutcome(Disk(), introduced, p);
        tree, left := tree[p := backup[p]], left - 1;
        unvisited := unvisited - {p};
      }
      NothingLeftToDo(Disk(), introduced);
      complete := true;
    }
  }

  lemma UnlinkKeepsOutcome(d: InstallTree.Disk, introduced: set<Path>, p: Path)
    requires p in introduced
    ensures Recovered(d.(tree := d.tree - {p}), introduced) == Recovered(d, introduced)
  {
    RecoveryStepKeepsOutcome(introduced, d, d.(tree := d.tree - {p}));
  }

  lemma CopyKeepsOutcome(d: InstallTree.Disk, introduced: set<Path>, p: Path)
    requires p in d.backup
    ensures Recovered(d.(tree := d.tree[p := d.backup[p]]), introduced) == Recovered(d, introduced)
  {
    RecoveryStepKeepsOutcome(introduced, d, d.(tree := d.tree[p := d.backup[p]]));
  }

  lemma NothingLeftToDo(d: InstallTree.Disk, introduced: set<Path>)
    requires forall p <- introduced :: p in d.tree ==> p in d.backup
    requires forall p <- d.backup :: p in d.tree && d.tree[p] == d.backup[p]
    ensures d.tree == Recovered(d, introduced)
  {
  }

  /** The loop stands before path i, has performed `taken` and may perform `left` more operations. */
  ghost predicate Progress(plan: Plan, paths: seq<Path>, limit: nat, start: InstallTree.Disk, now: InstallTree.Disk,
                           taken: seq<Step>, i: nat, left: nat)
    requires i <= |paths|
  {
    left + |taken| == limit && now == Run(plan.stage, start, taken)
    && Program(plan, start, SafePrefix(paths)) == taken + Program(plan, now, SafePrefix(paths[i..]))
    && forall j | 0 <= j < i :: SafePath(paths[j])
  }

  lemma ProgressStarts(plan: Plan, paths: seq<Path>, limit: nat, start: InstallTree.Disk)
    ensures Progress(plan, paths, limit, start, start, [], 0, limit)
  {
    assert paths[0..] == paths;
  }

  lemma SafeTurn(paths: seq<Path>, i: nat)
    requires i < |paths|
    ensures SafePrefix(paths[i..]) == if SafePath(paths[i]) then [paths[i]] + SafePrefix(paths[i + 1..]) else []
  {
    assert paths[i..][1..] == paths[i + 1..];
  }

  lemma ProgramTurn(plan: Plan, d: InstallTree.Disk, p: Path, more: seq<Path>)
    ensures var steps := PathSteps(plan, d, p);
            Program(plan, d, [p] + more) == steps + Program(plan, Run(plan.stage, d, steps), more)
  {
    assert ([p] + more)[1..] == more;
  }

  lemma TurnProgresses(plan: Plan, paths: seq<Path>, limit: nat, start: InstallTree.Disk, now: InstallTree.Disk,
                       next: InstallTree.Disk, taken: seq<Step>, i: nat, left: nat, remaining: nat)
    requires i < |paths| && SafePath(paths[i]) && Progress(plan, paths, limit, start, now, taken, i, left)
    requires var steps := PathSteps(plan, now, paths[i]);
             next == Run(plan.stage, now, Prefix(steps, left)) && |steps| <= left && remaining == left - |steps|
    ensures Progress(plan, paths, limit, start, next, taken + PathSteps(plan, now, paths[i]), i + 1, remaining)
  {
    var steps := PathSteps(plan, now, paths[i]);
    SafeTurn(paths, i);
    ProgramTurn(plan, now, paths[i], SafePrefix(paths[i + 1..]));
    RunAppend(plan.stage, start, taken, steps);
    assert next == Run(plan.stage, now, steps);
    Associative(taken, steps, Program(plan, next, SafePrefix(paths[i + 1..])));
  }

  lemma UnsafePathStops(plan: Plan, paths: seq<Path>, limit: nat, start: InstallTree.Disk, now: InstallTree.Disk,
                        taken: seq<Step>, i: nat, left: nat)
    requires i < |paths| && !SafePath(paths[i]) && Progress(plan, paths, limit, start, now, taken, i, left)
    ensures Outcome(plan, paths, limit, start, now, false)
  {
    SafeTurn(paths, i);
    assert taken + [] == taken;
  }

  lemma LimitStops(plan: Plan, paths: seq<Path>, limit: nat, start: InstallTree.Disk, now: InstallTree.Disk,
                   next: InstallTree.Disk, taken: seq<Step>, i: nat, left: nat)
    requires i < |paths| && SafePath(paths[i]) && Progress(plan, paths, limit, start, now, taken, i, left)
    requires var steps := PathSteps(plan, now, paths[i]);
             next == Run(plan.stage, now, Prefix(steps, left)) && left < |steps|
    ensures Outcome(plan, paths, limit, start, next, false)
  {
    var steps := PathSteps(plan, now, paths[i]);
    var rest := TurnSplits(plan, paths, limit, start, now, taken, i, left);
    StopOutcome(plan, paths, limit, start, next, taken, steps, rest, left);
  }

  lemma StopOutcome(plan: Plan, paths: seq<Path>, limit: nat, start: InstallTree.Disk, next: InstallTree.Disk,
                    taken: seq<Step>, steps: seq<Step>, rest: seq<Step>, left: nat)
    requires Program(plan, start, SafePrefix(paths)) == taken + (steps + rest) && limit == |taken| + left && left < |steps|
    requires next == Run(plan.stage, Run(plan.stage, start, taken), Prefix(steps, left))
    ensures Outcome(plan, paths, limit, start, next, false)
  {
    var whole := Program(plan, start, SafePrefix(paths));
    StopsIn(plan.stage, start, next, whole, taken, steps, rest, limit);
  }

  lemma StopsIn(stage: Tree, start: InstallTree.Disk, next: InstallTree.Disk, whole: seq<Step>, taken: seq<Step>,
                steps: seq<Step>, rest: seq<Step>, limit: nat)
    requires whole == taken + (steps + rest) && |taken| <= limit < |taken| + |steps|
    requires next == Run(stage, Run(stage, start, taken), Prefix(steps, limit - |taken|))
    ensures next == Run(stage, start, Prefix(whole, limit)) && limit < |whole|
  {
    StopWithin(stage, start, taken, steps, rest, limit - |taken|);
  }

  lemma TurnSplits(plan: Plan, paths: seq<Path>, limit: nat, start: InstallTree.Disk, now: InstallTree.Disk,
                   taken: seq<Step>, i: nat, left: nat) returns (rest: seq<Step>)
    requires i < |paths| && SafePath(paths[i]) && Progress(plan, paths, limit, start, now, taken, i, left)
    ensures Program(plan, start, SafePrefix(paths)) == taken + (PathSteps(plan, now, paths[i]) + rest)
  {
    SafeTurn(paths, i);
    ProgramTurn(plan, now, paths[i], SafePrefix(paths[i + 1..]));
    rest := Program(plan, Run(plan.stage, now, PathSteps(plan, now, paths[i])), SafePrefix(paths[i + 1..]));
  }

  lemma StopWithin(stage: Tree, start: InstallTree.Disk, taken: seq<Step>, steps: seq<Step>, rest: seq<Step>, left: nat)
    requires left < |steps|
    ensures |taken| + left < |taken + (steps + rest)|
    ensures Run(stage, start, Prefix(taken + (steps + rest), |taken| + left)) ==
              Run(stage, Run(stage, start, taken), Prefix(steps, left))
  {
    RunAppend(stage, start, taken, Prefix(steps, left));
    assert Prefix(taken + (steps + rest), |taken| + left) == taken + Prefix(steps, left);
  }

  lemma ProgressEnds(plan: Plan, paths: seq<Path>, limit: nat, start: InstallTree.Disk, now: InstallTree.Disk,
                     taken: seq<Step>, left: nat)
    requires Progress(plan, paths, limit, start, now, taken, |paths|, left)
    ensures Outcome(plan, paths, limit, start, now, true)
  {
    assert paths[|paths|..] == [];
    assert taken + [] == taken;
  }

  lemma InterruptionIsUndone(plan: Plan, tree: Tree, limit: nat)
    requires WellFormed(plan)
    ensures Undoable(plan, tree) ==>
              SameCode(Recovered(Run(plan.stage, InstallTree.Disk(tree, map[]), Prefix(FullProgram(plan, tree), limit)),
                                 Undo(plan, tree)), tree)
  {
    var whole := FullProgram(plan, tree);
    var k := if limit < |whole| then limit else |whole|;
    assert whole[..k] == Prefix(whole, limit);
    CrashThenRecoverExactly(plan, tree);
    assert StoppedAfter(plan, tree, k) == Run(plan.stage, InstallTree.Disk(tree, map[]), Prefix(whole, limit));
  }

  lemma Associative(a: seq<Step>, b: seq<Step>, c: seq<Step>)
    ensures a + (b + c) == a + b + c
  {
  }

  lemma Extend(stage: Tree, start: InstallTree.Disk, taken: seq<Step>, step: Step)
    ensures Run(stage, start, taken + [step]) == Apply(stage, Run(stage, start, taken), step)
  {
    RunAppend(stage, start, taken, [step]);
    assert [step][1..] == [];
    var d := Run(stage, start, taken);
    assert Run(stage, d, [step]) == Run(stage, Apply(stage, d, step), []);
  }
}
