// The activity lock that lets the updater drain the application: one flock'ed file, the queue hooks
// that carry a shared handle from the worker's loop to the job, and cron or web readers. Handles are
// numbered in the order in which the lock granted them.
module ActivityGate {
  import opened Options

  type Handle = nat
  type Job = nat
  type Pid = nat

  /** The lock file as the kernel sees it; `closed` counts how often each granted handle was given up. */
  datatype Lock = Lock(shared: set<Handle>, exclusive: Option<Handle>, next: Handle, closed: multiset<Handle>)

  function GrantShared(k: Lock): (r: (Lock, Option<Handle>))
  {
    if k.exclusive.Some? then (k, None)
    else (k.(shared := k.shared + {k.next}, next := k.next + 1), Some(k.next))
  }

  function GrantExclusive(k: Lock): (r: (Lock, Option<Handle>))
  {
    if k.exclusive.Some? || k.shared != {} then (k, None)
    else (k.(exclusive := Some(k.next), next := k.next + 1), Some(k.next))
  }

  function Close(k: Lock, h: Handle): Lock
  {
    k.(shared := k.shared - {h}, exclusive := if k.exclusive == Some(h) then None else k.exclusive,
       closed := k.closed + multiset{h})
  }

  /** What one queue worker keeps: $loopState->handle and $handles. `bodies` are the jobs whose body may
      be running, that is from a normal return of the before hook to the JobAttempted event; the hooks
      themselves do not know of them. */
  datatype Worker = Worker(loop: Option<Handle>, jobs: map<Job, Handle>, bodies: set<Job>)

  function LoopingHook(k: Lock, w: Worker): (r: (Lock, Worker, bool))
  {
    if w.loop.Some? then (k, w, true)
    else
      var (k', h) := GrantShared(k);
      (k', w.(loop := h), h.Some?)
  }

  /** Storing a handle under a job that already has one drops, and so closes, the old one. */
  function Stored(k: Lock, w: Worker, job: Job, h: Handle): (Lock, Worker)
  {
    (if job in w.jobs then Close(k, w.jobs[job]) else k, w.(jobs := w.jobs[job := h]))
  }

  function BeforeHook(k: Lock, w: Worker, job: Job): (r: (Lock, Worker, bool))
  {
    if w.loop.Some? then
      var (k', w') := Stored(k, w.(loop := None), job, w.loop.value);
      (k', w', true)
    else
      var (k', h) := GrantShared(k);
      if h.None? then (k', w, false)
      else
        var (k'', w') := Stored(k', w, job, h.value);
        (k'', w', true)
  }

  function AttemptedHook(k: Lock, w: Worker, job: Job): (r: (Lock, Worker))
  {
    if job !in w.jobs then (k, w) else (Close(k, w.jobs[job]), w.(jobs := w.jobs - {job}))
  }

  /** WorkerIdle and WorkerStopping. */
  function ReleaseLoopHook(k: Lock, w: Worker): (r: (Lock, Worker))
  {
    if w.loop.Some? then (Close(k, w.loop.value), w.(loop := None)) else (k, w)
  }

  // ---------------------------------------------------------------- the code

  class ActivityLock {
    var state: Lock

    method AcquireShared() returns (h: Option<Handle>)
      modifies this
      ensures (state, h) == GrantShared(old(state))
      ensures h.None? <==> old(state).exclusive.Some?
      ensures h.None? ==> state == old(state)
      ensures h.Some? ==> h.value == old(state).next && state == old(state).(shared := old(state).shared + {h.value}, next := h.value + 1)
    {
      if state.exclusive.Some? {
        return None;
      }
      h := Some(state.next);
      state := state.(shared := state.shared + {state.next}, next := state.next + 1);
    }

    method Release(h: Handle)
      modifies this
      ensures state == Close(old(state), h)
    {
      state := Close(state, h);
    }
  }

  class WorkerHooks {
    const gate: ActivityLock
    var loop: Option<Handle>
    var handles: map<Job, Handle>

    ghost function View(): Worker
      reads this
    {
      Worker(loop, handles, {})
    }

    constructor (gate: ActivityLock)
      ensures this.gate == gate && View() == Worker(None, map[], {})
    {
      this.gate := gate;
      loop, handles := None, map[];
    }

    method Looping() returns (proceed: bool)
      modifies this, gate
      ensures (gate.state, View(), proceed) == LoopingHook(old(gate.state), old(View()))
      ensures proceed <==> loop.Some?
      ensures proceed <==> old(loop).Some? || old(gate.state).exclusive.None?
      ensures handles == old(handles)
      ensures old(loop).Some? || !proceed ==> loop == old(loop) && gate.state == old(gate.state)
      ensures old(loop).None? && proceed ==>
                loop.value == old(gate.state).next && gate.state.shared == old(gate.state).shared + {loop.value}
                && gate.state.next == old(gate.state).next + 1 && gate.state.closed == old(gate.state).closed
    {
      if loop.Some? {
        return true;
      }
      loop := gate.AcquireShared();
      proceed := loop.Some?;
    }

    method Before(job: Job) returns (admitted: bool)
      modifies this, gate
      ensures (gate.state, View(), admitted) == BeforeHook(old(gate.state), old(View()), job)
      ensures admitted <==> old(loop).Some? || old(gate.state).exclusive.None?
      ensures !admitted ==> View() == old(View()) && gate.state == old(gate.state)
      ensures admitted ==>
                job in handles && handles == old(handles)[job := handles[job]] && loop.None?
                && handles[job] == (if old(loop).Some? then old(loop).value else old(gate.state).next)
                && gate.state.next == (if old(loop).Some? then old(gate.state).next else old(gate.state).next + 1)
                && gate.state.closed == old(gate.state).closed + (if job in old(handles) then multiset{old(handles)[job]} else multiset{})
    {
      var h := loop;
      if h.Some? {
        loop := None;
      } else {
        h := gate.AcquireShared();
        if h.None? {
          return false;
        }
      }
      if job in handles {
        gate.Release(handles[job]);
      }
      handles := handles[job := h.value];
      admitted := true;
    }

    method Attempted(job: Job)
      modifies this, gate
      ensures (gate.state, View()) == AttemptedHook(old(gate.state), old(View()), job)
      ensures loop == old(loop) && handles == old(handles) - {job}
      ensures job in old(handles) ==>
                old(handles)[job] !in gate.state.shared && gate.state.closed == old(gate.state).closed + multiset{old(handles)[job]}
      ensures job !in old(handles) ==> gate.state == old(gate.state)
    {
      if job !in handles {
        return;
      }
      var h := handles[job];
      handles := handles - {job};
      gate.Release(h);
    }

    method ReleaseLoop()
      modifies this, gate
      ensures (gate.state, View()) == ReleaseLoopHook(old(gate.state), old(View()))
      ensures loop.None? && handles == old(handles)
      ensures old(loop).Some? ==>
                old(loop).value !in gate.state.shared && gate.state.closed == old(gate.state).closed + multiset{old(loop).value}
      ensures old(loop).None? ==> gate.state == old(gate.state)
    {
      if loop.Some? {
        gate.Release(loop.value);
      }
      loop := None;
    }
  }

  datatype Wait = Acquired(attempt: nat) | TimedOut(attempts: nat) | NegativeTimeout

  /** acquireExclusive: `free` tells whether flock succeeds at the nth attempt, `clock` the time in
      nanoseconds before the first attempt and after each pause, which lasts at least 50 milliseconds.
      The lock is tried at least once, and given up only at the first reading past the deadline. */
  method AcquireExclusive(timeoutSeconds: int, free: nat -> bool, clock: nat -> int) returns (r: Wait)
    requires forall n: nat :: clock(n + 1) >= clock(n) + 50_000_000
    ensures r.NegativeTimeout? <==> timeoutSeconds < 0
    ensures var deadline := clock(0) + timeoutSeconds * 1_000_000_000;
            match r
            case Acquired(k) => free(k) && (forall i: nat | i < k :: !free(i)) && (forall i: nat | 1 <= i <= k :: clock(i) < deadline)
            case TimedOut(n) => n >= 1 && (forall i: nat | i < n :: !free(i)) && clock(n) >= deadline
                                && (forall i: nat | 1 <= i < n :: clock(i) < deadline)
            case NegativeTimeout => true
  {
    if timeoutSeconds < 0 {
      return NegativeTimeout;
    }
    var deadline := clock(0) + timeoutSeconds * 1_000_000_000;
    var n: nat := 0;
    while true
      invariant forall i: nat | i < n :: !free(i)
      invariant forall i: nat | 1 <= i <= n :: clock(i) < deadline
      decreases deadline - clock(n)
    {
      if free(n) {
        return Acquired(n);
      }
      n := n + 1;
      assert clock(n) >= clock(n - 1) + 50_000_000;
      if clock(n) >= deadline {
        return TimedOut(n);
      }
    }
  }

  // ---------------------------------------------------------------- all processes together

  datatype Gate = Gate(lock: Lock, workers: map<Pid, Worker>, readers: map<Pid, Handle>, updaters: map<Pid, Handle>)

  /** Whoever keeps a handle. */
  datatype Holder = LoopOf(pid: Pid) | JobOf(pid: Pid, job: Job) | ReaderOf(pid: Pid) | UpdaterOf(pid: Pid)

  ghost predicate Holds(g: Gate, x: Holder)
  {
    match x
    case LoopOf(p) => p in g.workers && g.workers[p].loop.Some?
    case JobOf(p, j) => p in g.workers && j in g.workers[p].jobs
    case ReaderOf(p) => p in g.readers
    case UpdaterOf(p) => p in g.updaters
  }

  ghost function HandleOf(g: Gate, x: Holder): Handle
    requires Holds(g, x)
  {
    match x
    case LoopOf(p) => g.workers[p].loop.value
    case JobOf(p, j) => g.workers[p].jobs[j]
    case ReaderOf(p) => g.readers[p]
    case UpdaterOf(p) => g.updaters[p]
  }

  /** The operating system closes everything a dying process had open. */
  function CloseAll(k: Lock, hs: set<Handle>): Lock
  {
    k.(shared := k.shared - hs, exclusive := if k.exclusive.Some? && k.exclusive.value in hs then None else k.exclusive,
       closed := k.closed + multiset(hs))
  }

  function WorkerHandles(w: Worker): set<Handle>
  {
    w.jobs.Values + if w.loop.Some? then {w.loop.value} else {}
  }

  datatype Event =
    | Looping(pid: Pid)
    | Before(pid: Pid, job: Job)
    | Attempted(pid: Pid, job: Job)
    | IdleOrStopping(pid: Pid)
    | WorkerStarts(pid: Pid)
    | WorkerDies(pid: Pid)
    | ReaderEnters(pid: Pid)
    | ReaderLeaves(pid: Pid)
    | UpdaterTries(pid: Pid)
    | UpdaterLeaves(pid: Pid)

  function SetWorker(g: Gate, p: Pid, k: Lock, w: Worker): Gate
  {
    g.(lock := k, workers := g.workers[p := w])
  }

  /** A worker without the handle of one job, which has been closed; its body is over. */
  function Dropped(g: Gate, p: Pid, j: Job): Gate
    requires p in g.workers
  {
    var (k, w) := AttemptedHook(g.lock, g.workers[p], j);
    SetWorker(g, p, k, w.(bodies := w.bodies - {j}))
  }

  /** Events that do not apply leave the gate as it is. A job's body runs when the before hook admits it. A reader or updater that leaves may as well
      have died: both close its one handle. */
  function After(g: Gate, e: Event): Gate
  {
    var p := e.pid;
    match e
    case Looping(_) =>
      if p !in g.workers then g else var (k, w, _) := LoopingHook(g.lock, g.workers[p]); SetWorker(g, p, k, w)
    case Before(_, j) =>
      if p !in g.workers then g
      else
        var (k, w, admitted) := BeforeHook(g.lock, g.workers[p], j);
        SetWorker(g, p, k, if admitted then w.(bodies := w.bodies + {j}) else w)
    case Attempted(_, j) => if p !in g.workers then g else Dropped(g, p, j)
    case IdleOrStopping(_) =>
      if p !in g.workers then g else var (k, w) := ReleaseLoopHook(g.lock, g.workers[p]); SetWorker(g, p, k, w)
    case WorkerStarts(_) => if p in g.workers then g else g.(workers := g.workers[p := Worker(None, map[], {})])
    case WorkerDies(_) =>
      if p !in g.workers then g
      else g.(lock := CloseAll(g.lock, WorkerHandles(g.workers[p])), workers := g.workers - {p})
    case ReaderEnters(_) =>
      var (k, h) := GrantShared(g.lock);
      if p in g.readers || h.None? then g else g.(lock := k, readers := g.readers[p := h.value])
    case ReaderLeaves(_) =>
      if p !in g.readers then g else g.(lock := Close(g.lock, g.readers[p]), readers := g.readers - {p})
    case UpdaterTries(_) =>
      var (k, h) := GrantExclusive(g.lock);
      if p in g.updaters || h.None? then g else g.(lock := k, updaters := g.updaters[p := h.value])
    case UpdaterLeaves(_) =>
      if p !in g.updaters then g else g.(lock := Close(g.lock, g.updaters[p]), updaters := g.updaters - {p})
  }

  function AfterAll(g: Gate, events: seq<Event>): Gate
  {
    if events == [] then g else After(AfterAll(g, events[..|events| - 1]), events[|events| - 1])
  }

  const EMPTY: Gate := Gate(Lock({}, None, 0, multiset{}), map[], map[], map[])

  ghost predicate HoldersMatchLock(g: Gate)
  {
    (forall x | Holds(g, x) ::
       if x.UpdaterOf? then g.lock.exclusive == Some(HandleOf(g, x)) else HandleOf(g, x) in g.lock.shared)
    && (forall x, y | Holds(g, x) && Holds(g, y) && HandleOf(g, x) == HandleOf(g, y) :: x == y)
    && (forall h <- g.lock.shared :: exists x :: Holds(g, x) && !x.UpdaterOf? && HandleOf(g, x) == h)
    && (g.lock.exclusive.Some? ==>
          g.lock.shared == {} && exists x :: Holds(g, x) && x.UpdaterOf? && HandleOf(g, x) == g.lock.exclusive.value)
  }

  /** Every handle ever granted is either open and in one place, or was closed once. */
  ghost predicate ClosedOnce(k: Lock)
  {
    forall h: Handle :: k.closed[h] == if h < k.next && h !in k.shared && k.exclusive != Some(h) then 1 else 0
  }

  ghost predicate Inv(g: Gate)
  {
    HoldersMatchLock(g) && ClosedOnce(g.lock)
    && (forall h <- g.lock.shared :: h < g.lock.next) && (g.lock.exclusive.Some? ==> g.lock.exclusive.value < g.lock.next)
    && forall p <- g.workers :: g.workers[p].bodies <= g.workers[p].jobs.Keys
  }

  // ---------------------------------------------------------------- every event keeps it

  ghost predicate Keeps(g: Gate, x: Holder, h: Handle)
  {
    Holds(g, x) && HandleOf(g, x) == h
  }

  /** The facts about locks and holders, without the workers' own bookkeeping. */
  ghost predicate Sound(g: Gate)
  {
    HoldersMatchLock(g) && ClosedOnce(g.lock)
    && (forall h <- g.lock.shared :: h < g.lock.next) && (g.lock.exclusive.Some? ==> g.lock.exclusive.value < g.lock.next)
  }

  lemma GrantKeepsSound(g: Gate, t: Gate, x: Holder)
    requires Sound(g) && !Holds(g, x)
    requires if x.UpdaterOf? then GrantExclusive(g.lock) == (t.lock, Some(g.lock.next))
             else GrantShared(g.lock) == (t.lock, Some(g.lock.next))
    requires forall y, h: Handle :: Keeps(t, y, h) <==> Keeps(g, y, h) || (y == x && h == g.lock.next)
    ensures Sound(t)
  {
    assert Keeps(t, x, g.lock.next);
    forall y | Holds(t, y)
      ensures if y.UpdaterOf? then t.lock.exclusive == Some(HandleOf(t, y)) else HandleOf(t, y) in t.lock.shared
    {
      assert Keeps(t, y, HandleOf(t, y));
    }
    forall y, z | Holds(t, y) && Holds(t, z) && HandleOf(t, y) == HandleOf(t, z) ensures y == z {
      assert Keeps(t, y, HandleOf(t, y)) && Keeps(t, z, HandleOf(t, z));
    }
    forall h <- t.lock.shared ensures exists y :: Holds(t, y) && !y.UpdaterOf? && HandleOf(t, y) == h {
      if h in g.lock.shared {
        var y :| Holds(g, y) && !y.UpdaterOf? && HandleOf(g, y) == h;
        assert Keeps(g, y, h) && Keeps(t, y, h);
      }
    }
  }

  lemma CloseKeepsSound(g: Gate, t: Gate, x: Holder)
    requires Sound(g) && Holds(g, x) && t.lock == Close(g.lock, HandleOf(g, x))
    requires forall y, h: Handle :: Keeps(t, y, h) <==> Keeps(g, y, h) && y != x
    ensures Sound(t)
  {
    forall y | Holds(t, y)
      ensures if y.UpdaterOf? then t.lock.exclusive == Some(HandleOf(t, y)) else HandleOf(t, y) in t.lock.shared
    {
      assert Keeps(t, y, HandleOf(t, y)) && Keeps(g, y, HandleOf(t, y));
    }
    forall y, z | Holds(t, y) && Holds(t, z) && HandleOf(t, y) == HandleOf(t, z) ensures y == z {
      assert Keeps(t, y, HandleOf(t, y)) && Keeps(t, z, HandleOf(t, z));
      assert Keeps(g, y, HandleOf(t, y)) && Keeps(g, z, HandleOf(t, z));
    }
    forall h <- t.lock.shared ensures exists y :: Holds(t, y) && !y.UpdaterOf? && HandleOf(t, y) == h {
      var y :| Holds(g, y) && !y.UpdaterOf? && HandleOf(g, y) == h;
      assert Keeps(g, y, h) && Keeps(t, y, h);
    }
  }

  /** The hand-over from the loop to the job changes who holds, not what is held. */
  lemma HandOverKeepsSound(g: Gate, t: Gate, x: Holder, z: Holder)
    requires Sound(g) && Holds(g, x) && !Holds(g, z) && t.lock == g.lock && !x.UpdaterOf? && !z.UpdaterOf?
    requires forall y, h: Handle :: Keeps(t, y, h) <==> (y != x && Keeps(g, y, h)) || (y == z && Keeps(g, x, h))
    ensures Sound(t)
  {
    forall y | Holds(t, y)
      ensures if y.UpdaterOf? then t.lock.exclusive == Some(HandleOf(t, y)) else HandleOf(t, y) in t.lock.shared
    {
      assert Keeps(t, y, HandleOf(t, y));
      assert Keeps(g, y, HandleOf(t, y)) || Keeps(g, x, HandleOf(t, y));
    }
    forall a, b | Holds(t, a) && Holds(t, b) && HandleOf(t, a) == HandleOf(t, b) ensures a == b {
      assert Keeps(t, a, HandleOf(t, a)) && Keeps(t, b, HandleOf(t, b));
      assert (a != x && Keeps(g, a, HandleOf(t, a))) || (a == z && Keeps(g, x, HandleOf(t, a)));
      assert (b != x && Keeps(g, b, HandleOf(t, b))) || (b == z && Keeps(g, x, HandleOf(t, b)));
    }
    forall h <- t.lock.shared ensures exists y :: Holds(t, y) && !y.UpdaterOf? && HandleOf(t, y) == h {
      var y :| Holds(g, y) && !y.UpdaterOf? && HandleOf(g, y) == h;
      assert Keeps(g, y, h) && (Keeps(t, y, h) || Keeps(t, z, h));
    }
  }

  lemma NothingHeldKeepsSound(g: Gate, t: Gate)
    requires Sound(g) && t.lock == g.lock && forall y, h: Handle :: Keeps(t, y, h) <==> Keeps(g, y, h)
    ensures Sound(t)
  {
    forall y | Holds(t, y)
      ensures if y.UpdaterOf? then t.lock.exclusive == Some(HandleOf(t, y)) else HandleOf(t, y) in t.lock.shared
    {
      assert Keeps(t, y, HandleOf(t, y)) && Keeps(g, y, HandleOf(t, y));
    }
    forall a, b | Holds(t, a) && Holds(t, b) && HandleOf(t, a) == HandleOf(t, b) ensures a == b {
      assert Keeps(t, a, HandleOf(t, a)) && Keeps(t, b, HandleOf(t, b));
      assert Keeps(g, a, HandleOf(t, a)) && Keeps(g, b, HandleOf(t, b));
    }
    forall h <- t.lock.shared ensures exists y :: Holds(t, y) && !y.UpdaterOf? && HandleOf(t, y) == h {
      var y :| Holds(g, y) && !y.UpdaterOf? && HandleOf(g, y) == h;
      assert Keeps(g, y, h) && Keeps(t, y, h);
    }
    if t.lock.exclusive.Some? {
      var y :| Holds(g, y) && y.UpdaterOf? && HandleOf(g, y) == g.lock.exclusive.value;
      assert Keeps(g, y, g.lock.exclusive.value) && Keeps(t, y, g.lock.exclusive.value);
    }
  }

  lemma LoopingKeepsInv(g: Gate, p: Pid)
    requires Inv(g)
    ensures Inv(After(g, Looping(p)))
  {
    var t := After(g, Looping(p));
    if p in g.workers && g.workers[p].loop.None? && g.lock.exclusive.None? {
      assert t.workers[p] == g.workers[p].(loop := Some(g.lock.next));
      GrantKeepsSound(g, t, LoopOf(p));
    } else if p in g.workers {
      assert t.workers[p] == g.workers[p];
      NothingHeldKeepsSound(g, t);
    }
  }

  lemma DroppedKeepsInv(g: Gate, p: Pid, j: Job)
    requires Inv(g) && p in g.workers
    ensures Inv(Dropped(g, p, j)) && !Holds(Dropped(g, p, j), JobOf(p, j))
    ensures After(g, Attempted(p, j)) == Dropped(g, p, j)
  {
    var t := Dropped(g, p, j);
    if j in g.workers[p].jobs {
      CloseKeepsSound(g, t, JobOf(p, j));
    } else {
      NothingHeldKeepsSound(g, t);
    }
  }

  lemma HandedOver(d: Gate, t: Gate, p: Pid, j: Job)
    requires p in d.workers && d.workers[p].loop.Some? && j !in d.workers[p].jobs
    requires var v := d.workers[p];
             t == d.(workers := d.workers[p := Worker(None, v.jobs[j := v.loop.value], v.bodies + {j})])
    ensures forall y, h: Handle :: Keeps(t, y, h) <==> (y != LoopOf(p) && Keeps(d, y, h)) || (y == JobOf(p, j) && Keeps(d, LoopOf(p), h))
  {
  }

  lemma HandedOverKeepsInv(g: Gate, p: Pid, j: Job)
    requires Inv(g) && p in g.workers && g.workers[p].loop.Some?
    ensures Inv(After(g, Before(p, j)))
  {
    var t, d := After(g, Before(p, j)), Dropped(g, p, j);
    DroppedKeepsInv(g, p, j);
    var v := d.workers[p];
    assert t.workers[p] == Worker(None, v.jobs[j := v.loop.value], v.bodies + {j});
    assert t.workers == d.workers[p := t.workers[p]];
    assert t == d.(workers := t.workers);
    HandedOver(d, t, p, j);
    HandOverKeepsSound(d, t, LoopOf(p), JobOf(p, j));
  }

  lemma Granted(d: Gate, t: Gate, p: Pid, j: Job, n: Handle)
    requires p in d.workers && j !in d.workers[p].jobs
    requires var v := d.workers[p];
             t == d.(lock := t.lock, workers := d.workers[p := Worker(v.loop, v.jobs[j := n], v.bodies + {j})])
    ensures forall y, h: Handle :: Keeps(t, y, h) <==> Keeps(d, y, h) || (y == JobOf(p, j) && h == n)
  {
  }

  lemma GrantedKeepsInv(g: Gate, p: Pid, j: Job)
    requires Inv(g) && p in g.workers && g.workers[p].loop.None? && g.lock.exclusive.None?
    ensures Inv(After(g, Before(p, j)))
  {
    var t, d := After(g, Before(p, j)), Dropped(g, p, j);
    DroppedKeepsInv(g, p, j);
    if j in g.workers[p].jobs {
      assert Holds(g, JobOf(p, j)) && HandleOf(g, JobOf(p, j)) in g.lock.shared;
    }
    var v := d.workers[p];
    assert t.workers[p] == Worker(None, v.jobs[j := d.lock.next], v.bodies + {j});
    assert t.workers == d.workers[p := t.workers[p]];
    assert t.lock == GrantShared(d.lock).0;
    assert t == d.(lock := t.lock, workers := t.workers);
    Granted(d, t, p, j, d.lock.next);
    GrantKeepsSound(d, t, JobOf(p, j));
  }

  lemma BeforeKeepsInv(g: Gate, p: Pid, j: Job)
    requires Inv(g)
    ensures Inv(After(g, Before(p, j)))
  {
    if p in g.workers {
      if g.workers[p].loop.Some? {
        HandedOverKeepsInv(g, p, j);
      } else if g.lock.exclusive.None? {
        GrantedKeepsInv(g, p, j);
      } else {
        assert After(g, Before(p, j)).workers == g.workers;
      }
    }
  }

  lemma IdleKeepsInv(g: Gate, p: Pid)
    requires Inv(g)
    ensures Inv(After(g, IdleOrStopping(p)))
  {
    var t := After(g, IdleOrStopping(p));
    if p in g.workers {
      if g.workers[p].loop.Some? {
        CloseKeepsSound(g, t, LoopOf(p));
      } else {
        assert t.workers == g.workers;
      }
    }
  }

  lemma StartKeepsInv(g: Gate, p: Pid)
    requires Inv(g)
    ensures Inv(After(g, WorkerStarts(p)))
  {
    NothingHeldKeepsSound(g, After(g, WorkerStarts(p)));
  }

  lemma ReadersAndUpdatersKeepInv(g: Gate, e: Event)
    requires Inv(g) && (e.ReaderEnters? || e.ReaderLeaves? || e.UpdaterTries? || e.UpdaterLeaves?)
    ensures Inv(After(g, e))
  {
    var t, p := After(g, e), e.pid;
    if t != g {
      match e
      case ReaderEnters(_) => GrantKeepsSound(g, t, ReaderOf(p));
      case ReaderLeaves(_) => CloseKeepsSound(g, t, ReaderOf(p));
      case UpdaterTries(_) => GrantKeepsSound(g, t, UpdaterOf(p));
      case UpdaterLeaves(_) => CloseKeepsSound(g, t, UpdaterOf(p));
    }
  }

  ghost predicate OfWorker(x: Holder, p: Pid)
  {
    (x.LoopOf? || x.JobOf?) && x.pid == p
  }

  lemma DeathKeepsInv(g: Gate, p: Pid)
    requires Inv(g)
    ensures Inv(After(g, WorkerDies(p)))
  {
    if p in g.workers {
      var t, hs := After(g, WorkerDies(p)), WorkerHandles(g.workers[p]);
      forall h: Handle ensures h in hs <==> exists x :: OfWorker(x, p) && Keeps(g, x, h) {
        var w := g.workers[p];
        if h in hs {
          if w.loop == Some(h) {
            assert Keeps(g, LoopOf(p), h);
          } else {
            var j :| j in w.jobs && w.jobs[j] == h;
            assert Keeps(g, JobOf(p, j), h);
          }
        }
        if x :| OfWorker(x, p) && Keeps(g, x, h) {
          assert x.LoopOf? ==> w.loop == Some(h);
          assert x.JobOf? ==> x.job in w.jobs && w.jobs[x.job] == h;
        }
      }
      forall y, h: Handle ensures Keeps(t, y, h) <==> Keeps(g, y, h) && !OfWorker(y, p) {
      }
      CloseAllKeepsSound(g, t, p, hs);
    }
  }

  lemma CloseAllKeepsSound(g: Gate, t: Gate, p: Pid, hs: set<Handle>)
    requires Sound(g) && t.lock == CloseAll(g.lock, hs)
    requires forall h: Handle :: h in hs <==> exists x :: OfWorker(x, p) && Keeps(g, x, h)
    requires forall y, h: Handle :: Keeps(t, y, h) <==> Keeps(g, y, h) && !OfWorker(y, p)
    ensures Sound(t)
  {
    assert hs <= g.lock.shared by {
      forall h <- hs ensures h in g.lock.shared {
        var x :| OfWorker(x, p) && Keeps(g, x, h);
        assert Holds(g, x);
      }
    }
    forall y | Holds(t, y)
      ensures if y.UpdaterOf? then t.lock.exclusive == Some(HandleOf(t, y)) else HandleOf(t, y) in t.lock.shared
    {
      assert Keeps(t, y, HandleOf(t, y)) && Keeps(g, y, HandleOf(t, y));
    }
    forall a, b | Holds(t, a) && Holds(t, b) && HandleOf(t, a) == HandleOf(t, b) ensures a == b {
      assert Keeps(t, a, HandleOf(t, a)) && Keeps(t, b, HandleOf(t, b));
      assert Keeps(g, a, HandleOf(t, a)) && Keeps(g, b, HandleOf(t, b));
    }
    forall h <- t.lock.shared ensures exists y :: Holds(t, y) && !y.UpdaterOf? && HandleOf(t, y) == h {
      var y :| Holds(g, y) && !y.UpdaterOf? && HandleOf(g, y) == h;
      assert Keeps(g, y, h) && Keeps(t, y, h);
    }
    if t.lock.exclusive.Some? {
      var y :| Holds(g, y) && y.UpdaterOf? && HandleOf(g, y) == g.lock.exclusive.value;
      assert Keeps(g, y, g.lock.exclusive.value) && Keeps(t, y, g.lock.exclusive.value);
    }
  }

  lemma EventKeepsInv(g: Gate, e: Event)
    requires Inv(g)
    ensures Inv(After(g, e))
  {
    match e
    case Looping(p) => LoopingKeepsInv(g, p);
    case Before(p, j) => BeforeKeepsInv(g, p, j);
    case Attempted(p, j) => if p in g.workers { DroppedKeepsInv(g, p, j); }
    case IdleOrStopping(p) => IdleKeepsInv(g, p);
    case WorkerStarts(p) => StartKeepsInv(g, p);
    case WorkerDies(p) => DeathKeepsInv(g, p);
    case _ => ReadersAndUpdatersKeepInv(g, e);
  }

  lemma EmptyIsSound()
    ensures Inv(EMPTY)
  {
  }

  lemma {:induction false} EventsKeepInv(events: seq<Event>)
    ensures Inv(AfterAll(EMPTY, events))
  {
    if events == [] {
      EmptyIsSound();
    } else {
      EventsKeepInv(events[..|events| - 1]);
      EventKeepsInv(AfterAll(EMPTY, events[..|events| - 1]), events[|events| - 1]);
    }
  }

  // ---------------------------------------------------------------- main results

  /** In every interleaving of workers, readers, deaths and updaters: while an updater holds the lock
      exclusively, no job body runs, no one holds it shared, and no other updater holds it. */
  lemma ExclusiveMeansQuiet(events: seq<Event>, u: Pid)
    requires u in AfterAll(EMPTY, events).updaters
    ensures var g := AfterAll(EMPTY, events);
            && g.lock.shared == {} && g.readers == map[] && g.updaters.Keys == {u}
            && forall p <- g.workers :: g.workers[p] == Worker(None, map[], {})
  {
    EventsKeepInv(events);
    var g := AfterAll(EMPTY, events);
    assert Holds(g, UpdaterOf(u));
    assert forall x | Holds(g, x) && !x.UpdaterOf? :: HandleOf(g, x) in g.lock.shared;
    forall p ensures p !in g.readers {
      assert !Holds(g, ReaderOf(p));
    }
    forall v | v in g.updaters ensures v == u {
      assert Holds(g, UpdaterOf(v));
    }
    forall p | p in g.workers ensures g.workers[p] == Worker(None, map[], {}) {
      assert !Holds(g, LoopOf(p));
      forall j ensures j !in g.workers[p].jobs {
        assert !Holds(g, JobOf(p, j));
      }
      assert g.workers[p].jobs == map[];
    }
  }

  /** Who no longer keeps a handle after an event. */
  ghost predicate LeftBy(e: Event, x: Holder)
  {
    match e
    case Attempted(p, j) => x == JobOf(p, j)
    case IdleOrStopping(p) => x == LoopOf(p)
    case WorkerDies(p) => OfWorker(x, p)
    case ReaderLeaves(p) => x == ReaderOf(p)
    case UpdaterLeaves(p) => x == UpdaterOf(p)
    case _ => false
  }

  ghost predicate Leaving(e: Event)
  {
    e.Attempted? || e.IdleOrStopping? || e.WorkerDies? || e.ReaderLeaves? || e.UpdaterLeaves?
  }

  /** The end of a job, an idle worker, and a death give up exactly the handles of their own. */
  lemma LeavingExactly(g: Gate, e: Event, x: Holder, h: Handle)
    requires Leaving(e)
    ensures Keeps(After(g, e), x, h) <==> Keeps(g, x, h) && !LeftBy(e, x)
  {
  }

  /** In every interleaving: a job is admitted exactly if the worker's loop hands a handle over or no
      updater holds the lock; then its body may run and it keeps a handle. A refusal changes nothing. */
  lemma JobIsAdmittedExactly(events: seq<Event>, p: Pid, j: Job)
    requires p in AfterAll(EMPTY, events).workers && j !in AfterAll(EMPTY, events).workers[p].jobs
    ensures var g, t := AfterAll(EMPTY, events), After(AfterAll(EMPTY, events), Before(p, j));
            && (Holds(t, JobOf(p, j)) <==> Holds(g, LoopOf(p)) || g.updaters == map[])
            && (j in t.workers[p].bodies <==> Holds(t, JobOf(p, j)))
            && (Holds(g, LoopOf(p)) ==> Keeps(t, JobOf(p, j), HandleOf(g, LoopOf(p))))
            && (Holds(t, JobOf(p, j)) ==> !Holds(t, LoopOf(p)) && HandleOf(t, JobOf(p, j)) in t.lock.shared)
            && (!Holds(t, JobOf(p, j)) ==> t == g)
  {
    EventsKeepInv(events);
    var g := AfterAll(EMPTY, events);
    EventKeepsInv(g, Before(p, j));
    NoUpdater(g);
    if g.workers[p].loop.None? && g.lock.exclusive.Some? {
      assert g.workers[p := g.workers[p]] == g.workers;
    }
  }

  lemma NoUpdater(g: Gate)
    requires HoldersMatchLock(g)
    ensures g.lock.exclusive.None? <==> g.updaters == map[]
  {
    if g.lock.exclusive.Some? {
      var x :| Holds(g, x) && x.UpdaterOf? && HandleOf(g, x) == g.lock.exclusive.value;
      assert x.pid in g.updaters;
    } else if u :| u in g.updaters {
      assert Holds(g, UpdaterOf(u));
    }
  }

  /** And a reader is let in, or a worker's loop goes on, exactly while no updater holds the lock. */
  lemma ReaderIsAdmittedExactly(events: seq<Event>, p: Pid)
    ensures var g := AfterAll(EMPTY, events);
            && (Holds(After(g, ReaderEnters(p)), ReaderOf(p)) <==> Holds(g, ReaderOf(p)) || g.updaters == map[])
            && (p in g.workers ==>
                  (Holds(After(g, Looping(p)), LoopOf(p)) <==> Holds(g, LoopOf(p)) || g.updaters == map[]))
  {
    EventsKeepInv(events);
    NoUpdater(AfterAll(EMPTY, events));
  }

  /** A worker that starts, takes a job and finishes it keeps an updater out in between, and no longer. */
  lemma UpdateWaitsForJob(p: Pid, j: Job, u: Pid)
    ensures var working := After(After(After(EMPTY, WorkerStarts(p)), Looping(p)), Before(p, j));
            && working.workers[p].bodies == {j} && After(working, UpdaterTries(u)) == working
            && u in After(After(working, Attempted(p, j)), UpdaterTries(u)).updaters
  {
    var started := After(EMPTY, WorkerStarts(p));
    assert started == EMPTY.(workers := map[p := Worker(None, map[], {})]);
    var looping := After(started, Looping(p));
    assert looping == Gate(Lock({0}, None, 1, multiset{}), map[p := Worker(Some(0), map[], {})], map[], map[]);
    var working := After(looping, Before(p, j));
    var held := Worker(None, map[j := 0], {j});
    assert looping.workers[p].bodies + {j} == {j} && looping.workers[p].jobs[j := 0] == map[j := 0];
    assert working.workers[p] == held;
    assert looping.workers[p := held] == map[p := held];
    var ended := After(working, Attempted(p, j));
    assert ended.lock.shared == {} && ended.lock.exclusive == None;
  }

  /** The handles locked shared are exactly those kept by loops, jobs and readers, each kept once. */
  lemma SharedHandlesAreKept(events: seq<Event>, h: Handle)
    ensures var g := AfterAll(EMPTY, events);
            && (h in g.lock.shared <==> exists x :: Keeps(g, x, h) && !x.UpdaterOf?)
            && (forall x, y | Keeps(g, x, h) && Keeps(g, y, h) :: x == y)
  {
    EventsKeepInv(events);
    var g := AfterAll(EMPTY, events);
    if h in g.lock.shared {
      var x :| Holds(g, x) && !x.UpdaterOf? && HandleOf(g, x) == h;
      assert Keeps(g, x, h);
    }
  }

  /** A granted handle is never closed twice, and it is closed unless someone still keeps it. */
  lemma HandlesAreReleasedOnce(events: seq<Event>, h: Handle)
    ensures var g := AfterAll(EMPTY, events);
            g.lock.closed[h] == if h < g.lock.next && !(exists x :: Keeps(g, x, h)) then 1 else 0
  {
    EventsKeepInv(events);
    SharedHandlesAreKept(events, h);
    var g := AfterAll(EMPTY, events);
    if g.lock.exclusive == Some(h) {
      var x :| Holds(g, x) && x.UpdaterOf? && HandleOf(g, x) == g.lock.exclusive.value;
      assert Keeps(g, x, h);
    }
  }

  /** The updater gets the lock exactly when nobody keeps a handle. */
  lemma UpdaterIsAdmittedExactly(events: seq<Event>, u: Pid)
    requires u !in AfterAll(EMPTY, events).updaters
    ensures var g := AfterAll(EMPTY, events);
            u in After(g, UpdaterTries(u)).updaters <==> forall x :: !Holds(g, x)
  {
    EventsKeepInv(events);
    LockIsFreeExactly(AfterAll(EMPTY, events));
  }

  lemma LockIsFreeExactly(g: Gate)
    requires HoldersMatchLock(g)
    ensures g.lock.exclusive.None? && g.lock.shared == {} <==> forall x :: !Holds(g, x)
  {
    if h :| h in g.lock.shared {
      var x :| Holds(g, x) && !x.UpdaterOf? && HandleOf(g, x) == h;
    }
    if g.lock.exclusive.Some? {
      var x :| Holds(g, x) && x.UpdaterOf? && HandleOf(g, x) == g.lock.exclusive.value;
    }
  }
}
