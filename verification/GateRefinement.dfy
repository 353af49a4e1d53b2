// The activity gate with its handles, hooks and deaths is the gate of the update protocol, which only
// counts readers and knows the process that holds it exclusively.
module GateRefinement {
  import opened Options
  import opened UpdateProtocol
  import A = ActivityGate

  /** What the protocol sees of the gate. */
  ghost predicate Shows(g: A.Gate, s: State)
  {
    s.readers == |g.lock.shared| && forall u :: s.exclusive == Some(u) <==> u in g.updaters
  }

  /** Readers come and go, by the steps of the protocol. */
  ghost predicate ReadersMove(path: seq<State>)
  {
    path != [] && forall i, j | 0 <= i && j == i + 1 && j < |path| :: ReaderEnters(path[i], path[j]) || ReaderLeaves(path[i], path[j])
  }

  lemma {:induction false} ReadersReach(s: State, n: nat) returns (path: seq<State>)
    requires s.exclusive.None?
    ensures ReadersMove(path) && path[0] == s && path[|path| - 1] == s.(readers := n)
    decreases if n < s.readers then s.readers - n else n - s.readers
  {
    if n == s.readers {
      path := [s];
    } else {
      var next := s.(readers := if n < s.readers then s.readers - 1 else s.readers + 1);
      assert ReaderEnters(s, next) || ReaderLeaves(s, next);
      var rest := ReadersReach(next, n);
      path := [s] + rest;
    }
  }

  /** While the updaters stay the same, the readers account for the whole change. */
  lemma ReadersAccount(g: A.Gate, t: A.Gate, s: State) returns (path: seq<State>)
    requires A.HoldersMatchLock(g) && A.HoldersMatchLock(t) && t.updaters == g.updaters && Shows(g, s)
    ensures ReadersMove(path) && path[0] == s && Shows(t, path[|path| - 1])
  {
    if u :| u in g.updaters {
      assert A.Holds(g, A.UpdaterOf(u)) && A.Holds(t, A.UpdaterOf(u));
      path := [s];
    } else {
      UpdatersMatch(g, s);
      assert g.updaters == map[];
      path := ReadersReach(s, |t.lock.shared|);
    }
  }

  lemma OnlyUpdatersChange(g: A.Gate, e: A.Event)
    requires !e.UpdaterTries? && !e.UpdaterLeaves?
    ensures A.After(g, e).updaters == g.updaters
  {
  }

  /** Events of workers and readers are steps in which readers enter while nobody holds the gate
      exclusively, and leave. */
  lemma ReadersRefine(g: A.Gate, e: A.Event, s: State) returns (path: seq<State>)
    requires A.Inv(g) && Shows(g, s) && !e.UpdaterTries? && !e.UpdaterLeaves?
    ensures ReadersMove(path) && path[0] == s && Shows(A.After(g, e), path[|path| - 1])
  {
    A.EventKeepsInv(g, e);
    OnlyUpdatersChange(g, e);
    path := ReadersAccount(g, A.After(g, e), s);
  }

  /** An updater that tries gets the gate exactly when the protocol's guard allows it, and then any
      process of the protocol that is draining takes it by that step. */
  lemma GrantRefines(g: A.Gate, u: Pid, s: State)
    requires A.Inv(g) && Shows(g, s) && u !in g.updaters
    ensures var t := A.After(g, A.UpdaterTries(u));
            if s.exclusive.None? && s.readers == 0 then Shows(t, s.(exclusive := Some(u))) else t == g
    ensures forall q: Process | q.Updating? && q.stage.Journalled? && At(s, u, q) && s.journal.Some?
                                && s.journal.value.phase == Draining && s.exclusive.None? && s.readers == 0 ::
              var next := Move(s, u, q.(stage := Exclusive)).(exclusive := Some(u));
              TakeGate(s, next, u, q) && Shows(A.After(g, A.UpdaterTries(u)), next)
  {
    UpdatersMatch(g, s);
    assert s.readers == 0 <==> g.lock.shared == {};
  }

  lemma UpdatersMatch(g: A.Gate, s: State)
    requires A.HoldersMatchLock(g) && Shows(g, s)
    ensures s.exclusive.None? <==> g.lock.exclusive.None?
    ensures s.exclusive.None? <==> g.updaters == map[]
  {
    if s.exclusive.Some? {
      assert s.exclusive.value in g.updaters;
      assert A.Holds(g, A.UpdaterOf(s.exclusive.value));
    }
    if g.lock.exclusive.Some? {
      var x :| A.Holds(g, x) && x.UpdaterOf? && A.HandleOf(g, x) == g.lock.exclusive.value;
      assert x.pid in g.updaters;
    }
    if u :| u in g.updaters {
      assert s.exclusive == Some(u);
    }
  }

  /** An updater that leaves gives the gate back as the end of its process does. */
  lemma ReleaseRefines(g: A.Gate, u: Pid, s: State)
    requires A.Inv(g) && Shows(g, s) && u in g.updaters
    ensures var t := A.After(g, A.UpdaterLeaves(u));
            && s.exclusive == Some(u) && Shows(t, s.(exclusive := None))
            && forall next | End(s, next, u) :: Shows(t, next)
  {
    assert A.Holds(g, A.UpdaterOf(u));
    assert g.lock.shared == {};
    assert s.exclusive == Some(u);
  }
}
