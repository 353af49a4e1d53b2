// The update protocol run with the real version order.
module UpdateHistory {
  import opened Precedence
  import opened UpdateRuns
  import UpdateProtocol

  ghost predicate OrdersBySemver(w: UpdateProtocol.World)
  {
    forall a, b :: w.newer(a, b) <==> NewerVersion(a, b)
  }

  /** Each entry is newer than all before it. */
  ghost predicate Increases(history: seq<string>)
  {
    forall a, b | 0 <= a < b < |history| :: NewerVersion(history[b], history[a])
  }

  ghost predicate InOrder(history: seq<string>)
  {
    forall a, b | 0 <= a < b < |history| :: !OutOfOrder(history[a], history[b])
  }

  ghost predicate TransitiveOn(newer: (string, string) -> bool, history: seq<string>)
  {
    forall a, b, c | 0 <= a < b < c < |history| ::
      newer(history[c], history[b]) && newer(history[b], history[a]) ==> newer(history[c], history[a])
  }

  lemma {:induction false} ClimbsFar(newer: (string, string) -> bool, history: seq<string>, a: nat, b: nat)
    requires Climbs(newer, history) && TransitiveOn(newer, history) && a < b < |history|
    ensures newer(history[b], history[a])
    decreases b
  {
    if b > a + 1 {
      ClimbsFar(newer, history, a, b - 1);
    }
  }

  lemma OrderedIsTransitive(a: string, b: string, c: string)
    requires NewerVersion(c, b) && NewerVersion(b, a) && !OutOfOrder(a, b) && !OutOfOrder(b, c) && !OutOfOrder(a, c)
    ensures NewerVersion(c, a)
  {
    NewerIsWellFormed(c, b);
    NewerIsWellFormed(b, a);
    NewerIsTransitive(a, b, c);
  }

  /** Over every run of updates, crashes and recoveries, whatever their manifests, a committed version
      compares greater than the one it replaced, and when nothing is pending no other version than the
      last is installed. */
  lemma HistoryStepsUp(w: UpdateProtocol.World, run: seq<UpdateProtocol.State>, i: nat)
    requires OrdersBySemver(w) && UpdateProtocol.IsRun(w, run) && i < |run|
    ensures var history := run[i].history;
            && history != []
            && (forall a, b | 0 <= a && b == a + 1 && b < |history| :: NewerVersion(history[b], history[a]))
            && (run[i].journal.None? ==> UpdateProtocol.NoOtherVersion(w, run[i].disk.tree, history[|history| - 1]))
  {
    UpdateProtocol.EachCommitIsNewer(w, run, i);
    var history := run[i].history;
    forall a, b | 0 <= a && b == a + 1 && b < |history| ensures NewerVersion(history[b], history[a]) {
      assert w.newer(history[b], history[a]);
    }
  }

  /** While no two committed versions are out of order, each compares greater than every version
      committed before it. */
  lemma CommittedVersionsIncrease(w: UpdateProtocol.World, run: seq<UpdateProtocol.State>, i: nat)
    requires OrdersBySemver(w) && UpdateProtocol.IsRun(w, run) && i < |run| && InOrder(run[i].history)
    ensures Increases(run[i].history)
  {
    UpdateProtocol.EachCommitIsNewer(w, run, i);
    var history := run[i].history;
    forall x, y, z | 0 <= x < y < z < |history| && w.newer(history[z], history[y]) && w.newer(history[y], history[x])
      ensures w.newer(history[z], history[x])
    {
      OrderedIsTransitive(history[x], history[y], history[z]);
    }
    forall a, b | 0 <= a < b < |history| ensures NewerVersion(history[b], history[a]) {
      ClimbsFar(w.newer, history, a, b);
      assert w.newer(history[b], history[a]);
    }
  }

  /** All that is out of order in the history is among these versions. */
  ghost predicate OthersInOrder(versions: set<string>, history: seq<string>)
  {
    forall a, b | 0 <= a < b < |history| ::
      (history[a] in versions && history[b] in versions) || !OutOfOrder(history[a], history[b])
  }

  /** Over all runs whose history takes in versions that are in order with the rest of it, besides any of
      the given ones, committed versions increase exactly if no two of the given ones are out of order. */
  lemma HistoriesIncreaseExactly(w: UpdateProtocol.World, k: Contents, versions: set<string>)
    requires OrdersBySemver(w) && Describes(w, k)
    ensures (forall run: seq<UpdateProtocol.State>, i: nat |
               UpdateProtocol.IsRun(w, run) && i < |run| && OthersInOrder(versions, run[i].history) :: Increases(run[i].history))
            <==> (forall a, b | a in versions && b in versions :: !OutOfOrder(a, b))
  {
    if a, b :| a in versions && b in versions && OutOfOrder(a, b) {
      var run := RunWithDetour(w, k, versions, a, b);
      var i: nat := |run| - 1;
      assert !Increases(run[i].history);
    } else {
      forall run: seq<UpdateProtocol.State>, i: nat |
        UpdateProtocol.IsRun(w, run) && i < |run| && OthersInOrder(versions, run[i].history)
        ensures Increases(run[i].history)
      {
        CommittedVersionsIncrease(w, run, i);
      }
    }
  }

  lemma RunWithDetour(w: UpdateProtocol.World, k: Contents, versions: set<string>, a: string, b: string)
    returns (run: seq<UpdateProtocol.State>)
    requires OrdersBySemver(w) && Describes(w, k) && a in versions && b in versions && OutOfOrder(a, b)
    ensures UpdateProtocol.IsRun(w, run)
    ensures OthersInOrder(versions, run[|run| - 1].history) && !Increases(run[|run| - 1].history)
  {
    var c := DetourBetween(a, b);
    OutOfOrderBothWays(a, c);
    OutOfOrderBothWays(c, b);
    if NewerVersion(c, a) && NewerVersion(b, c) && !NewerVersion(b, a) {
      run := RunThrough(w, k, versions, a, c, b);
    } else {
      run := RunThrough(w, k, versions, b, c, a);
    }
  }

  lemma RunThrough(w: UpdateProtocol.World, k: Contents, versions: set<string>, x: string, y: string, z: string)
    returns (run: seq<UpdateProtocol.State>)
    requires OrdersBySemver(w) && Describes(w, k) && x in versions && z in versions
    requires !OutOfOrder(x, y) && !OutOfOrder(y, z) && NewerVersion(y, x) && NewerVersion(z, y) && !NewerVersion(z, x)
    ensures UpdateProtocol.IsRun(w, run)
    ensures OthersInOrder(versions, run[|run| - 1].history) && !Increases(run[|run| - 1].history)
  {
    assert w.newer(y, x) && w.newer(z, y);
    ClimbsTwice(w.newer, x, y, z);
    run := ClimbHasRun(w, k, [x, y, z]);
    OnlyEndsMeet(versions, x, y, z);
    NotThroughout(x, y, z);
  }

  lemma ClimbsTwice(newer: (string, string) -> bool, x: string, y: string, z: string)
    requires newer(y, x) && newer(z, y)
    ensures Climbs(newer, [x, y, z])
  {
  }

  lemma OnlyEndsMeet(versions: set<string>, x: string, y: string, z: string)
    requires x in versions && z in versions && !OutOfOrder(x, y) && !OutOfOrder(y, z)
    ensures OthersInOrder(versions, [x, y, z])
  {
    var history := [x, y, z];
    forall a, b | 0 <= a < b < |history| ensures (history[a] in versions && history[b] in versions) || !OutOfOrder(history[a], history[b]) {
      assert (a == 0 && b == 1) || (a == 0 && b == 2) || (a == 1 && b == 2);
    }
  }

  lemma NotThroughout(x: string, y: string, z: string)
    requires !NewerVersion(z, x)
    ensures !Increases([x, y, z])
  {
    var history := [x, y, z];
    assert !NewerVersion(history[2], history[0]);
  }

  // ---------------------------------------------------------------- a circle

  /** Files that consist of the version they say, and one manifest. */
  const EXAMPLES: Contents := Contents(v => v, "")

  const EXAMPLE_WORLD: UpdateProtocol.World :=
    UpdateProtocol.World((a, b) => NewerVersion(a, b), c => c, _ => [UpdateProtocol.VERSION_FILE])

  lemma ExamplesDescribed()
    ensures OrdersBySemver(EXAMPLE_WORLD) && Describes(EXAMPLE_WORLD, EXAMPLES)
  {
  }

  /** A run of three updates, each to a newer version, that ends with the version it began with. */
  lemma UpdatesCanGoInACircle() returns (w: UpdateProtocol.World, run: seq<UpdateProtocol.State>)
    ensures OrdersBySemver(w) && UpdateProtocol.IsRun(w, run)
    ensures var last := run[|run| - 1];
            |last.history| == 4 && last.history[3] == last.history[0]
  {
    w := EXAMPLE_WORLD;
    ExamplesDescribed();
    var one, word, two := CycleExists();
    CycleClimbs(w, one, word, two);
    run := ClimbHasRun(w, EXAMPLES, [one, word, two, one]);
  }

  lemma CycleClimbs(w: UpdateProtocol.World, one: string, word: string, two: string)
    requires OrdersBySemver(w) && NewerVersion(word, one) && NewerVersion(two, word) && NewerVersion(one, two)
    ensures Climbs(w.newer, [one, word, two, one])
  {
    assert w.newer(word, one) && w.newer(two, word) && w.newer(one, two);
    ClimbsRound(w.newer, one, word, two);
  }

  lemma ClimbsRound(newer: (string, string) -> bool, one: string, word: string, two: string)
    requires newer(word, one) && newer(two, word) && newer(one, two)
    ensures Climbs(newer, [one, word, two, one])
  {
  }
}
