// Staged uploads: a database row with a lease, a file, and a lock per stage. Clients write, complete and
// destroy stages, jobs remove those of a deleting transfer, pruning removes expired ones, and a sweep
// removes files that have lost their row.
module StageLeases {
  type StageId = nat
  type TransferId = nat
  type Pid = nat

  const HOUR: nat := 3600

  datatype Progress = Receiving | Finalizing | Complete

  datatype Row = Row(expires: nat, transfer: TransferId, progress: Progress)

  /** Why a stage is removed: pruning has re-read the row under its lock and found it expired, a job has
      found it in a transfer that is being deleted, or its own client destroys it. */
  datatype Reason = Expired | Deleting | Destroyed

  /** Who works on a stage under its lock file. A mender has found the stage finalizing with nobody at
      work on it. Removal unlinks the file first and deletes the row second. A releaser is the end of a
      completed upload: it unlinks the file and keeps the row. A sweeper looks for the row, and if it is
      absent unlinks the file. */
  datatype Task =
    | Writer(id: StageId)
    | Finisher(id: StageId)
    | Mender(id: StageId)
    | Releaser(id: StageId)
    | Remover(id: StageId, why: Reason, unlinked: bool)
    | Sweeper(id: StageId, absent: bool)

  /** Files carry their modification time. A stage that is still being begun has a file but no committed
      row; `opening` says since when. `looks` are the processes that have seen an old file and not yet
      taken its lock. `completed` are the stages whose client has published the chunk. `begun` and
      `reused` record the identifiers begun at least once and at least twice; no step depends on them. */
  datatype State = State(now: nat, rows: map<StageId, Row>, files: map<StageId, nat>, opening: map<StageId, nat>,
                         looks: map<Pid, StageId>, tasks: map<Pid, Task>, deleting: set<TransferId>,
                         completed: set<StageId>, begun: set<StageId>, reused: set<StageId>)

  predicate Free(s: State, id: StageId)
  {
    forall p <- s.tasks :: s.tasks[p].id != id
  }

  predicate Live(s: State, id: StageId)
  {
    id in s.rows && s.rows[id].expires > s.now
  }

  /** What a client may still write to. */
  predicate Writable(s: State, id: StageId)
  {
    Live(s, id) && s.rows[id].progress == Receiving && s.rows[id].transfer !in s.deleting
  }

  predicate Doing(s: State, p: Pid, id: StageId)
  {
    p in s.tasks && s.tasks[p].id == id
  }

  /** Time, beginnings and deletions are the same. */
  ghost predicate SameTables(s: State, t: State)
  {
    t.now == s.now && t.opening == s.opening && t.deleting == s.deleting && t.begun == s.begun && t.reused == s.reused
  }

  function Start(s: State, p: Pid, task: Task): (t: State)
    ensures SameTables(s, t)
  {
    s.(tasks := s.tasks[p := task])
  }

  function Stop(s: State, p: Pid): (t: State)
    ensures SameTables(s, t)
  {
    s.(tasks := s.tasks - {p})
  }

  datatype Event =
    | Tick(seconds: nat)
    | DeleteTransfer(transfer: TransferId)
    | OpenStage(id: StageId)
    | CommitStage(id: StageId, transfer: TransferId, ttl: nat)
    | AbortStage(id: StageId)
    | RemoveAborted(id: StageId)
    | Recognise(id: StageId)
    | Lock(pid: Pid, task: Task)
    | Renew(pid: Pid, ttl: nat)
    | Publish(pid: Pid)
    | Fail(pid: Pid)
    | Mend(pid: Pid, published: bool)
    | Release(pid: Pid)
    | TakeFile(pid: Pid)
    | TakeRow(pid: Pid)
    | Look(pid: Pid, id: StageId)
    | LookUp(pid: Pid)
    | SweepFile(pid: Pid)
    | Unlock(pid: Pid)

  /** Who may take the lock of a stage, for what. */
  predicate MayLock(s: State, p: Pid, task: Task)
  {
    Free(s, task.id)
    && match task
       case Writer(id) => id in s.rows
       case Finisher(id) => Writable(s, id)
       case Mender(id) => id in s.rows && s.rows[id].progress == Finalizing
       case Releaser(id) => id in s.completed
       case Remover(id, why, unlinked) =>
         id in s.rows && !unlinked
         && (match why
             case Expired => s.rows[id].expires <= s.now
             case Deleting => s.rows[id].transfer in s.deleting
             case Destroyed => s.rows[id].progress != Finalizing)
       case Sweeper(id, absent) => !absent && p in s.looks && s.looks[p] == id
  }

  // What an event does where it applies; elsewhere it changes nothing.

  function SetProgress(s: State, id: StageId, progress: Progress): State
    requires id in s.rows
  {
    s.(rows := s.rows[id := s.rows[id].(progress := progress)])
  }

  /** Beginning a stage is assumed to take less than an hour, so time does not pass beyond that while one
      is open. */
  function Ticked(s: State, d: nat): State
  {
    if exists id <- s.opening :: s.opening[id] + HOUR <= s.now + d then s else s.(now := s.now + d)
  }

  predicate MayOpen(s: State, id: StageId)
  {
    id !in s.rows && id !in s.opening && id !in s.files
  }

  function Renewed(s: State, p: Pid, ttl: nat): (t: State)
    ensures SameTables(s, t)
  {
    if p in s.tasks && s.tasks[p].Writer? && Writable(s, s.tasks[p].id) then
      var id := s.tasks[p].id;
      s.(rows := s.rows[id := s.rows[id].(expires := s.now + ttl)], files := if id in s.files then s.files[id := s.now] else s.files)
    else s
  }

  function Opened(s: State, id: StageId): State
  {
    s.(opening := s.opening[id := s.now], files := s.files[id := s.now], begun := s.begun + {id},
       reused := if id in s.begun then s.reused + {id} else s.reused)
  }

  /** A finisher that dies before this, or that the store answers with an error, leaves the stage
      finalizing. */
  function Published(s: State, p: Pid): (t: State)
    ensures SameTables(s, t)
  {
    if p in s.tasks && s.tasks[p].Finisher? && s.tasks[p].id in s.rows then
      var id := s.tasks[p].id;
      Stop(SetProgress(s, id, Complete).(completed := s.completed + {id}), p)
    else s
  }

  /** One that ends with an exception puts it back. */
  function Failed(s: State, p: Pid): (t: State)
    ensures SameTables(s, t)
  {
    if p in s.tasks && s.tasks[p].Finisher? then
      var id := s.tasks[p].id;
      Stop(if id in s.rows && s.rows[id].progress == Finalizing then SetProgress(s, id, Receiving) else s, p)
    else s
  }

  /** recoverFinalizing() goes by whether the chunk is published, not by what the row says by now. */
  function Mended(s: State, p: Pid, published: bool): (t: State)
    ensures SameTables(s, t)
  {
    if p in s.tasks && s.tasks[p].Mender? && s.tasks[p].id in s.rows then
      Stop(SetProgress(s, s.tasks[p].id, if published then Complete else Receiving), p)
    else s
  }

  function Locked(s: State, p: Pid, task: Task): (t: State)
    ensures SameTables(s, t)
  {
    if p in s.tasks || !MayLock(s, p, task) then s
    else if task.Finisher? then Start(SetProgress(s, task.id, Finalizing), p, task)
    else if task.Sweeper? then Start(s, p, task).(looks := s.looks - {p})
    else Start(s, p, task)
  }

  function LookedUp(s: State, p: Pid): (t: State)
    ensures SameTables(s, t)
  {
    if p in s.tasks && s.tasks[p].Sweeper? then
      if s.tasks[p].id in s.rows then Stop(s, p) else Start(s, p, s.tasks[p].(absent := true))
    else s
  }

  function FileTaken(s: State, p: Pid): (t: State)
    ensures SameTables(s, t)
  {
    if p in s.tasks && s.tasks[p].Remover? then
      Start(s, p, s.tasks[p].(unlinked := true)).(files := s.files - {s.tasks[p].id})
    else s
  }

  function RowTaken(s: State, p: Pid): (t: State)
    ensures SameTables(s, t)
  {
    if p in s.tasks && s.tasks[p].Remover? && s.tasks[p].unlinked then Stop(s, p).(rows := s.rows - {s.tasks[p].id}) else s
  }

  function FileGone(s: State, p: Pid): (t: State)
    requires p in s.tasks
    ensures SameTables(s, t)
  {
    Stop(s, p).(files := s.files - {s.tasks[p].id})
  }

  function After(s: State, e: Event): State
  {
    match e
    case Tick(d) => Ticked(s, d)
    case DeleteTransfer(t) => s.(deleting := s.deleting + {t})
    case OpenStage(id) =>
      if MayOpen(s, id) then Opened(s, id) else s
    case CommitStage(id, transfer, ttl) =>
      if id in s.opening && transfer !in s.deleting
      then s.(rows := s.rows[id := Row(s.opening[id] + ttl, transfer, Receiving)], opening := s.opening - {id}) else s
    case AbortStage(id) => s.(opening := s.opening - {id})
    case RemoveAborted(id) =>
      if id in s.rows || id in s.opening || !Free(s, id) then s else s.(files := s.files - {id})
    case Recognise(id) => if id in s.rows then SetProgress(s, id, Complete) else s
    case Lock(p, task) => Locked(s, p, task)
    case Renew(p, ttl) => Renewed(s, p, ttl)
    case Publish(p) => Published(s, p)
    case Fail(p) => Failed(s, p)
    case Mend(p, published) => Mended(s, p, published)
    case Release(p) => if p in s.tasks && s.tasks[p].Releaser? then FileGone(s, p) else s
    case TakeFile(p) => FileTaken(s, p)
    case TakeRow(p) => RowTaken(s, p)
    case Look(p, id) => if id in s.files && s.files[id] + HOUR <= s.now then s.(looks := s.looks[p := id]) else s
    case LookUp(p) => LookedUp(s, p)
    case SweepFile(p) => if p in s.tasks && s.tasks[p].Sweeper? && s.tasks[p].absent then FileGone(s, p) else s
    case Unlock(p) => Stop(s, p)
  }

  const EMPTY: State := State(0, map[], map[], map[], map[], map[], {}, {}, {}, {})

  function AfterAll(events: seq<Event>): State
  {
    if events == [] then EMPTY else After(AfterAll(events[..|events| - 1]), events[|events| - 1])
  }

  // ---------------------------------------------------------------- the invariant

  ghost predicate TaskConsistent(s: State, task: Task)
  {
    match task
    case Writer(_) => true
    case Finisher(id) => id in s.rows
    case Mender(id) => id in s.rows
    case Releaser(id) => id in s.completed
    case Remover(id, why, unlinked) =>
      id in s.rows && id !in s.opening && (unlinked ==> id !in s.files)
      && (why == Expired ==> s.rows[id].expires <= s.now) && (why == Deleting ==> s.rows[id].transfer in s.deleting)
      && (why == Destroyed ==> s.rows[id].progress != Finalizing)
    case Sweeper(id, absent) => Orphaned(s, id) && (absent && id in s.rows ==> id in s.reused)
  }

  /** A file that was old when it was looked at belongs to no stage that is being begun, unless its
      identifier is used again. */
  ghost predicate Orphaned(s: State, id: StageId)
  {
    id in s.begun && (id in s.opening ==> id in s.reused)
  }

  ghost predicate LooksConsistent(s: State)
  {
    s.files.Keys <= s.begun && forall p <- s.looks :: Orphaned(s, s.looks[p])
  }

  ghost predicate OneTaskEach(s: State)
  {
    forall p <- s.tasks, q <- s.tasks | s.tasks[p].id == s.tasks[q].id :: p == q
  }

  /** While a stage is being begun its file is there, unless the client's own upload of that name has
      been completed before or it is being begun once more. */
  ghost predicate OpeningConsistent(s: State)
  {
    forall id <- s.opening ::
      id !in s.rows && s.opening[id] + HOUR > s.now && (id in s.files ==> s.files[id] == s.opening[id])
      && (id !in s.files ==> id in s.completed || id in s.reused)
  }

  ghost predicate Inv(s: State)
  {
    OneTaskEach(s) && OpeningConsistent(s) && LooksConsistent(s) && forall p <- s.tasks :: TaskConsistent(s, s.tasks[p])
  }

  /** Where tasks are not touched it is enough that each stays consistent. */
  lemma ClockAndLooksKeepInv(s: State, e: Event)
    requires Inv(s) && (e.Tick? || e.DeleteTransfer? || e.Recognise? || e.Look?)
    ensures Inv(After(s, e))
  {
    var t := After(s, e);
    forall p <- t.tasks ensures TaskConsistent(t, t.tasks[p]) {
      assert TaskConsistent(s, s.tasks[p]);
    }
  }

  lemma BeginningKeepsInv(s: State, e: Event)
    requires Inv(s) && (e.OpenStage? || e.CommitStage?)
    ensures Inv(After(s, e))
  {
    var t := After(s, e);
    forall p <- t.tasks ensures TaskConsistent(t, t.tasks[p]) {
      assert TaskConsistent(s, s.tasks[p]);
    }
  }

  lemma AbortionKeepsInv(s: State, e: Event)
    requires Inv(s) && (e.AbortStage? || e.RemoveAborted?)
    ensures Inv(After(s, e))
  {
    var t := After(s, e);
    forall p <- t.tasks ensures TaskConsistent(t, t.tasks[p]) {
      assert TaskConsistent(s, s.tasks[p]);
    }
  }

  lemma RenewKeepsInv(s: State, p: Pid, ttl: nat)
    requires Inv(s)
    ensures Inv(After(s, Renew(p, ttl)))
  {
    var t := After(s, Renew(p, ttl));
    forall q <- t.tasks ensures TaskConsistent(t, t.tasks[q]) {
      assert TaskConsistent(s, s.tasks[q]);
      assert p in s.tasks && q != p ==> s.tasks[q].id != s.tasks[p].id;
    }
  }

  lemma ForgetLookKeepsInv(s: State, p: Pid)
    requires Inv(s)
    ensures Inv(s.(looks := s.looks - {p}))
  {
    var t := s.(looks := s.looks - {p});
    forall q <- t.tasks ensures TaskConsistent(t, t.tasks[q]) {
      assert TaskConsistent(s, s.tasks[q]);
    }
  }

  lemma LockKeepsInv(s: State, p: Pid, task: Task)
    requires Inv(s)
    ensures Inv(Locked(s, p, task))
  {
    if p !in s.tasks && MayLock(s, p, task) {
      if task.Finisher? {
        SetProgressKeepsInv(s, task.id, Finalizing);
        StartKeepsInv(SetProgress(s, task.id, Finalizing), p, task);
      } else {
        MayLockIsConsistent(s, p, task);
        StartKeepsInv(s, p, task);
        ForgetLookKeepsInv(Start(s, p, task), p);
      }
    }
  }

  lemma MayLockIsConsistent(s: State, p: Pid, task: Task)
    requires Inv(s) && MayLock(s, p, task)
    ensures TaskConsistent(s, task)
  {
    if task.Sweeper? {
      assert Orphaned(s, s.looks[p]);
    }
  }

  lemma StopKeepsInv(s: State, p: Pid)
    requires Inv(s)
    ensures Inv(Stop(s, p))
  {
    forall q <- Stop(s, p).tasks ensures TaskConsistent(Stop(s, p), Stop(s, p).tasks[q]) {
      assert TaskConsistent(s, s.tasks[q]);
    }
  }

  lemma SetProgressKeepsInv(s: State, id: StageId, progress: Progress)
    requires Inv(s) && id in s.rows && (progress == Finalizing ==> Free(s, id))
    ensures Inv(SetProgress(s, id, progress))
  {
    var t := SetProgress(s, id, progress);
    assert t.rows.Keys == s.rows.Keys;
    forall q <- t.tasks ensures TaskConsistent(t, t.tasks[q]) {
      assert TaskConsistent(s, s.tasks[q]);
    }
  }

  lemma CompletedKeepsInv(s: State, id: StageId)
    requires Inv(s)
    ensures Inv(s.(completed := s.completed + {id}))
  {
    var t := s.(completed := s.completed + {id});
    forall q <- t.tasks ensures TaskConsistent(t, t.tasks[q]) {
      assert TaskConsistent(s, s.tasks[q]);
    }
  }

  lemma ProgressKeepsInv(s: State, e: Event)
    requires Inv(s) && (e.Publish? || e.Fail? || e.Mend?)
    ensures Inv(After(s, e))
  {
    var p := e.pid;
    if p in s.tasks {
      var id := s.tasks[p].id;
      if id in s.rows {
        SetProgressKeepsInv(s, id, Complete);
        SetProgressKeepsInv(s, id, Receiving);
        CompletedKeepsInv(SetProgress(s, id, Complete), id);
        StopKeepsInv(SetProgress(s, id, Complete).(completed := s.completed + {id}), p);
        StopKeepsInv(SetProgress(s, id, Complete), p);
        StopKeepsInv(SetProgress(s, id, Receiving), p);
      }
      StopKeepsInv(s, p);
    }
  }

  lemma StartKeepsInv(s: State, p: Pid, task: Task)
    requires Inv(s) && TaskConsistent(s, task)
    requires if p in s.tasks then s.tasks[p].id == task.id else Free(s, task.id)
    ensures Inv(Start(s, p, task))
  {
    var t := Start(s, p, task);
    forall q <- t.tasks ensures TaskConsistent(t, t.tasks[q]) {
      if q != p {
        assert TaskConsistent(s, s.tasks[q]);
      }
    }
  }

  lemma LookUpKeepsInv(s: State, p: Pid)
    requires Inv(s)
    ensures Inv(LookedUp(s, p))
  {
    if p in s.tasks && s.tasks[p].Sweeper? {
      assert TaskConsistent(s, s.tasks[p]);
      if s.tasks[p].id in s.rows {
        StopKeepsInv(s, p);
      } else {
        StartKeepsInv(s, p, s.tasks[p].(absent := true));
      }
    }
  }

  /** Steps that take a file or a row away: no other task is at that stage. */
  lemma OthersStayConsistent(s: State, t: State, p: Pid)
    requires Inv(s) && p in s.tasks
    requires t.now == s.now && t.opening == s.opening && t.deleting == s.deleting && t.completed == s.completed
    requires t.begun == s.begun && t.reused == s.reused
    requires t.rows - {s.tasks[p].id} == s.rows - {s.tasks[p].id} && t.files - {s.tasks[p].id} == s.files - {s.tasks[p].id}
    ensures forall q <- s.tasks | q != p :: TaskConsistent(t, s.tasks[q])
  {
    var id := s.tasks[p].id;
    forall q <- s.tasks | q != p ensures TaskConsistent(t, s.tasks[q]) {
      var other := s.tasks[q].id;
      assert other != id && TaskConsistent(s, s.tasks[q]);
      assert other in t.rows <==> other in t.rows - {id};
      assert other in s.rows <==> other in s.rows - {id};
      assert other in t.files <==> other in t.files - {id};
      assert other in s.files <==> other in s.files - {id};
      assert other in s.rows ==> (s.rows - {id})[other] == s.rows[other] == (t.rows - {id})[other] == t.rows[other];
    }
  }

  lemma FileRemovalKeepsInv(s: State, e: Event)
    requires Inv(s) && (e.TakeFile? || e.SweepFile? || e.Release?)
    ensures Inv(After(s, e))
  {
    var t, p := After(s, e), e.pid;
    if p in s.tasks && t != s {
      assert TaskConsistent(s, s.tasks[p]);
      OthersStayConsistent(s, t, p);
    }
  }

  lemma RowRemovalKeepsInv(s: State, p: Pid)
    requires Inv(s)
    ensures Inv(RowTaken(s, p))
  {
    var t := RowTaken(s, p);
    if p in s.tasks && t != s {
      assert TaskConsistent(s, s.tasks[p]);
      OthersStayConsistent(s, t, p);
    }
  }

  lemma EventKeepsInv(s: State, e: Event)
    requires Inv(s)
    ensures Inv(After(s, e))
  {
    match e
    case Lock(p, task) => LockKeepsInv(s, p, task);
    case Renew(p, ttl) => RenewKeepsInv(s, p, ttl);
    case Publish(p) => ProgressKeepsInv(s, e);
    case Fail(p) => ProgressKeepsInv(s, e);
    case Mend(p, _) => ProgressKeepsInv(s, e);
    case LookUp(p) => LookUpKeepsInv(s, p);
    case Release(_) => FileRemovalKeepsInv(s, e);
    case TakeFile(_) => FileRemovalKeepsInv(s, e);
    case TakeRow(p) => RowRemovalKeepsInv(s, p);
    case SweepFile(_) => FileRemovalKeepsInv(s, e);
    case OpenStage(_) => BeginningKeepsInv(s, e);
    case CommitStage(_, _, _) => BeginningKeepsInv(s, e);
    case AbortStage(_) => AbortionKeepsInv(s, e);
    case RemoveAborted(_) => AbortionKeepsInv(s, e);
    case Unlock(p) => StopKeepsInv(s, p);
    case _ => ClockAndLooksKeepInv(s, e);
  }

  lemma {:induction false} RunsKeepInv(events: seq<Event>)
    ensures Inv(AfterAll(events))
  {
    if events != [] {
      RunsKeepInv(events[..|events| - 1]);
      EventKeepsInv(AfterAll(events[..|events| - 1]), events[|events| - 1]);
    }
  }

  // ---------------------------------------------------------------- main results

  /** What a removal found out when it took the lock still holds when it acts. */
  ghost predicate Justified(s: State, id: StageId, why: Reason)
  {
    id in s.rows
    && match why
       case Expired => s.rows[id].expires <= s.now
       case Deleting => s.rows[id].transfer in s.deleting
       case Destroyed => s.rows[id].progress != Finalizing
  }

  /** A row disappears only by a removal, after its file, and for a reason that holds at that moment,
      whatever writers did between its selection and its deletion. */
  lemma RowsGoForAReason(events: seq<Event>, e: Event, id: StageId)
    requires var s, t := AfterAll(events), After(AfterAll(events), e); id in s.rows && id !in t.rows
    ensures var s := AfterAll(events);
            e.TakeRow? && Doing(s, e.pid, id) && s.tasks[e.pid].Remover? && Justified(s, id, s.tasks[e.pid].why) && id !in s.files
  {
    RunsKeepInv(events);
    var s := AfterAll(events);
    RowsKept(s, e, id);
    assert TaskConsistent(s, s.tasks[e.pid]);
  }

  lemma RowsKept(s: State, e: Event, id: StageId)
    requires id in s.rows && id !in After(s, e).rows
    ensures e.TakeRow? && e.pid in s.tasks && s.tasks[e.pid].Remover? && s.tasks[e.pid].id == id && s.tasks[e.pid].unlinked
  {
    match e
    case Tick(_) =>
    case DeleteTransfer(_) =>
    case OpenStage(_) =>
    case CommitStage(_, _, _) =>
    case AbortStage(_) =>
    case RemoveAborted(_) =>
    case Recognise(_) =>
    case Lock(_, _) =>
    case Renew(_, _) =>
    case Publish(_) =>
    case Fail(_) =>
    case Mend(_, _) =>
    case Release(_) =>
    case TakeFile(_) =>
    case TakeRow(_) =>
    case Look(_, _) =>
    case LookUp(_) =>
    case SweepFile(_) =>
    case Unlock(_) =>
  }

  /** A live stage, or one that is being begun, keeps its file against pruning and failed beginnings: it
      loses it only to the completion or destruction of an upload of its own client, to the removal of a
      deleting transfer, or to the sweep, and to that only if its identifier was begun before. */
  lemma LiveStagesKeepTheirFiles(events: seq<Event>, e: Event, id: StageId)
    requires var s, t := AfterAll(events), After(AfterAll(events), e);
             (Live(s, id) || id in s.opening) && id in s.files && id !in t.files
    ensures var s := AfterAll(events);
            || (e.Release? && Doing(s, e.pid, id) && s.tasks[e.pid].Releaser? && id in s.completed)
            || (e.TakeFile? && Doing(s, e.pid, id) && s.tasks[e.pid].Remover? && id in s.rows
                && (s.tasks[e.pid].why == Destroyed || (s.tasks[e.pid].why == Deleting && s.rows[id].transfer in s.deleting)))
            || (e.SweepFile? && Doing(s, e.pid, id) && s.tasks[e.pid].Sweeper? && id in s.reused)
  {
    RunsKeepInv(events);
    var s := AfterAll(events);
    FilesKept(s, e, id);
    if !e.RemoveAborted? {
      assert TaskConsistent(s, s.tasks[e.pid]);
    }
  }

  lemma FilesKept(s: State, e: Event, id: StageId)
    requires id in s.files && id !in After(s, e).files
    ensures e.RemoveAborted? || e.Release? || e.TakeFile? || e.SweepFile?
    ensures e.RemoveAborted? ==> e.id == id && id !in s.rows && id !in s.opening
    ensures e.Release? ==> Doing(s, e.pid, id) && s.tasks[e.pid].Releaser?
    ensures e.TakeFile? ==> Doing(s, e.pid, id) && s.tasks[e.pid].Remover?
    ensures e.SweepFile? ==> Doing(s, e.pid, id) && s.tasks[e.pid].Sweeper? && s.tasks[e.pid].absent
  {
    match e
    case Tick(_) =>
    case DeleteTransfer(_) =>
    case OpenStage(_) =>
    case CommitStage(_, _, _) =>
    case AbortStage(_) =>
    case RemoveAborted(_) =>
    case Recognise(_) =>
    case Lock(_, _) =>
    case Renew(_, _) =>
    case Publish(_) =>
    case Fail(_) =>
    case Mend(_, _) =>
    case Release(_) =>
    case TakeFile(_) =>
    case TakeRow(_) =>
    case Look(_, _) =>
    case LookUp(_) =>
    case SweepFile(_) =>
    case Unlock(_) =>
  }

  // ---------------------------------------------------------------- what a lease is worth

  /** The stage, should it be there, is leased at least until then, and so is one begun from now on. */
  predicate Leased(s: State, id: StageId, until: nat, ttl: nat)
  {
    (id in s.rows ==> s.rows[id].expires >= until) && (id in s.opening ==> s.opening[id] + ttl >= until) && s.now + ttl >= until
  }

  predicate PrunesAs(task: Task, id: StageId)
  {
    task.Remover? && task.id == id && task.why == Expired
  }

  /** And nobody who has found it expired is at work before. */
  ghost predicate LeasedUntil(s: State, id: StageId, until: nat, ttl: nat)
  {
    Leased(s, id, until, ttl) && forall p <- s.tasks :: PrunesAs(s.tasks[p], id) ==> until <= s.now
  }

  predicate OfTerm(e: Event, ttl: nat)
  {
    (e.Renew? ==> e.ttl == ttl) && (e.CommitStage? ==> e.ttl == ttl)
  }

  lemma LeaseStays(s: State, e: Event, id: StageId, until: nat, ttl: nat)
    requires Leased(s, id, until, ttl) && OfTerm(e, ttl)
    ensures Leased(After(s, e), id, until, ttl) && s.now <= After(s, e).now
  {
    if OfTask(e) {
      TaskKeepsLease(s, e, id, until, ttl);
    } else {
      TableKeepsLease(s, e, id, until, ttl);
    }
  }

  /** What is done under the lock of a stage. */
  predicate OfTask(e: Event)
  {
    e.Lock? || e.Renew? || e.Publish? || e.Fail? || e.Mend? || e.Release? || e.TakeFile? || e.TakeRow? || e.LookUp? || e.SweepFile? || e.Unlock?
  }

  lemma TasksKeepTables(s: State, e: Event)
    requires OfTask(e)
    ensures SameTables(s, After(s, e))
  {
  }

  lemma TaskKeepsLease(s: State, e: Event, id: StageId, until: nat, ttl: nat)
    requires OfTask(e) && Leased(s, id, until, ttl) && OfTerm(e, ttl)
    ensures Leased(After(s, e), id, until, ttl) && s.now <= After(s, e).now
  {
    TasksKeepTables(s, e);
    if e.Lock? {
      LockKeepsLease(s, e.pid, e.task, id);
    } else if e.Renew? {
    } else {
      TaskKeepsExpiry(s, e, id);
    }
  }

  lemma LockKeepsLease(s: State, p: Pid, task: Task, id: StageId)
    ensures id in Locked(s, p, task).rows ==> id in s.rows && Locked(s, p, task).rows[id].expires == s.rows[id].expires
  {
  }

  lemma TaskKeepsExpiry(s: State, e: Event, id: StageId)
    requires OfTask(e) && !e.Lock? && !e.Renew?
    ensures id in After(s, e).rows ==> id in s.rows && After(s, e).rows[id].expires == s.rows[id].expires
  {
  }

  lemma TableKeepsLease(s: State, e: Event, id: StageId, until: nat, ttl: nat)
    requires !OfTask(e) && Leased(s, id, until, ttl) && OfTerm(e, ttl)
    ensures Leased(After(s, e), id, until, ttl) && s.now <= After(s, e).now
  {
    match e
    case Tick(_) =>
    case DeleteTransfer(_) =>
    case OpenStage(_) =>
    case CommitStage(_, _, _) =>
    case AbortStage(_) =>
    case RemoveAborted(_) =>
    case Recognise(_) =>
    case Look(_, _) =>
  }

  /** Only taking the lock makes a pruner. */
  lemma PrunersStay(s: State, e: Event, id: StageId, p: Pid)
    requires p in After(s, e).tasks && PrunesAs(After(s, e).tasks[p], id)
    ensures (p in s.tasks && PrunesAs(s.tasks[p], id)) || (id in s.rows && s.rows[id].expires <= s.now)
  {
    if e.Lock? {
      PrunerLocks(s, e.pid, e.task, id, p);
    } else if p in s.tasks && PrunesAs(s.tasks[p], id) {
    } else {
      NoNewPruner(s, e, id, p);
    }
  }

  lemma PrunerLocks(s: State, q: Pid, task: Task, id: StageId, p: Pid)
    requires p in Locked(s, q, task).tasks && PrunesAs(Locked(s, q, task).tasks[p], id)
    ensures (p in s.tasks && PrunesAs(s.tasks[p], id)) || (id in s.rows && s.rows[id].expires <= s.now)
  {
  }

  lemma NoNewPruner(s: State, e: Event, id: StageId, p: Pid)
    requires !e.Lock? && !(p in s.tasks && PrunesAs(s.tasks[p], id))
    ensures !(p in After(s, e).tasks && PrunesAs(After(s, e).tasks[p], id))
  {
    if !OfTask(e) {
      TablesKeepTasks(s, e);
    } else {
      TasksEnd(s, e, p);
    }
  }

  lemma TablesKeepTasks(s: State, e: Event)
    requires !OfTask(e)
    ensures After(s, e).tasks == s.tasks
  {
  }

  /** Under the lock a task goes on as the same removal, if it is one, or ends. */
  lemma TasksEnd(s: State, e: Event, p: Pid)
    requires OfTask(e) && !e.Lock?
    ensures p in After(s, e).tasks ==>
              p in s.tasks && var task, next := s.tasks[p], After(s, e).tasks[p];
                              next == task || (task.Remover? && next == task.(unlinked := true)) || (task.Sweeper? && next.Sweeper?)
  {
  }

  lemma LeaseStep(s: State, e: Event, id: StageId, until: nat, ttl: nat)
    requires LeasedUntil(s, id, until, ttl) && OfTerm(e, ttl)
    ensures LeasedUntil(After(s, e), id, until, ttl)
  {
    LeaseStays(s, e, id, until, ttl);
    var t := After(s, e);
    forall p <- t.tasks | PrunesAs(t.tasks[p], id) ensures until <= t.now {
      PrunersStay(s, e, id, p);
    }
  }

  lemma AfterNext(events: seq<Event>, j: nat)
    requires j < |events|
    ensures AfterAll(events[..j + 1]) == After(AfterAll(events[..j]), events[j])
  {
    assert events[..j + 1][..j] == events[..j];
  }

  lemma {:induction false} LeaseLasts(events: seq<Event>, i: nat, j: nat, id: StageId, until: nat, ttl: nat)
    requires i <= j <= |events| && (forall e <- events :: OfTerm(e, ttl))
    requires LeasedUntil(AfterAll(events[..i]), id, until, ttl)
    ensures LeasedUntil(AfterAll(events[..j]), id, until, ttl)
    decreases j
  {
    if i < j {
      LeaseLasts(events, i, j - 1, id, until, ttl);
      AfterNext(events, j - 1);
      LeaseStep(AfterAll(events[..j - 1]), events[j - 1], id, until, ttl);
    }
  }

  /** Pruning does not touch the stage: the lease runs, nobody may begin to remove it as expired, and
      nobody is about to take its file or row as such. */
  ghost predicate SafeFromPruning(s: State, e: Event, id: StageId)
  {
    (id in s.rows ==> Live(s, id))
    && (forall q :: !MayLock(s, q, Remover(id, Expired, false)))
    && ((e.TakeFile? || e.TakeRow?) && Doing(s, e.pid, id) && s.tasks[e.pid].Remover? ==> s.tasks[e.pid].why != Expired)
  }

  /** A part that a client writes at time n keeps its stage, whatever happens, from pruning for the whole
      term from then on; the term is the same throughout. */
  lemma RenewalLasts(events: seq<Event>, i: nat, j: nat, id: StageId, ttl: nat)
    requires i < j < |events| && (forall e <- events :: OfTerm(e, ttl)) && events[i].Renew?
    requires var s := AfterAll(events[..i]);
             Doing(s, events[i].pid, id) && s.tasks[events[i].pid].Writer? && Writable(s, id)
             && AfterAll(events[..j]).now < s.now + ttl
    ensures SafeFromPruning(AfterAll(events[..j]), events[j], id)
    ensures id in AfterAll(events[..i + 1]).rows && id in AfterAll(events[..i]).files ==> id in AfterAll(events[..i + 1]).files
  {
    var s := AfterAll(events[..i]);
    RunsKeepInv(events[..i]);
    AfterNext(events, i);
    assert OfTerm(events[i], ttl);
    RenewalLeases(s, events[i], id);
    LeaseLasts(events, i + 1, j, id, s.now + ttl, ttl);
  }

  lemma RenewalLeases(s: State, e: Event, id: StageId)
    requires Inv(s) && e.Renew? && Doing(s, e.pid, id) && s.tasks[e.pid].Writer? && Writable(s, id)
    ensures LeasedUntil(After(s, e), id, s.now + e.ttl, e.ttl)
    ensures id in After(s, e).rows && (id in s.files ==> id in After(s, e).files)
  {
    forall q <- s.tasks ensures !PrunesAs(s.tasks[q], id) {
      assert s.tasks[q].id == id ==> q == e.pid;
    }
  }

  /** And so does the beginning of an upload, from the moment its file was made. */
  lemma BeginningLasts(events: seq<Event>, i: nat, j: nat, id: StageId, ttl: nat)
    requires i < j < |events| && (forall e <- events :: OfTerm(e, ttl)) && events[i].CommitStage? && events[i].id == id
    requires var s := AfterAll(events[..i]);
             id in s.opening && events[i].transfer !in s.deleting && AfterAll(events[..j]).now < s.opening[id] + ttl
    ensures id in AfterAll(events[..i + 1]).rows && SafeFromPruning(AfterAll(events[..j]), events[j], id)
  {
    var s := AfterAll(events[..i]);
    RunsKeepInv(events[..i]);
    AfterNext(events, i);
    OpeningIsPast(events[..i], id);
    assert OfTerm(events[i], ttl);
    BeginningLeases(s, events[i]);
    LeaseLasts(events, i + 1, j, id, s.opening[id] + ttl, ttl);
  }

  lemma {:induction false} OpeningIsPast(events: seq<Event>, id: StageId)
    ensures id in AfterAll(events).opening ==> AfterAll(events).opening[id] <= AfterAll(events).now
  {
    if events != [] {
      OpeningIsPast(events[..|events| - 1], id);
      OpeningStaysPast(AfterAll(events[..|events| - 1]), events[|events| - 1], id);
    }
  }

  lemma OpeningStaysPast(s: State, e: Event, id: StageId)
    requires id in s.opening ==> s.opening[id] <= s.now
    ensures id in After(s, e).opening ==> After(s, e).opening[id] <= After(s, e).now
  {
    if OfTask(e) {
      TasksKeepTables(s, e);
    } else {
      TablesKeepOpeningPast(s, e, id);
    }
  }

  lemma TablesKeepOpeningPast(s: State, e: Event, id: StageId)
    requires !OfTask(e) && (id in s.opening ==> s.opening[id] <= s.now)
    ensures id in After(s, e).opening ==> After(s, e).opening[id] <= After(s, e).now
  {
  }

  lemma BeginningLeases(s: State, e: Event)
    requires Inv(s) && e.CommitStage? && e.id in s.opening && s.opening[e.id] <= s.now && e.transfer !in s.deleting
    ensures LeasedUntil(After(s, e), e.id, s.opening[e.id] + e.ttl, e.ttl) && e.id in After(s, e).rows
  {
    forall q <- s.tasks ensures !PrunesAs(s.tasks[q], e.id) {
      assert TaskConsistent(s, s.tasks[q]);
    }
  }

  // ---------------------------------------------------------------- an upload from beginning to end

  /** An upload that is begun can be written to. */
  lemma BeginningOpens(s: State, id: StageId, transfer: TransferId, ttl: nat)
    requires MayOpen(s, id) && transfer !in s.deleting && ttl > 0
    ensures var t := Play(s, [OpenStage(id), CommitStage(id, transfer, ttl)]);
            && Writable(t, id) && id in t.files && t.rows[id].transfer == transfer && t.rows[id].expires == s.now + ttl
            && t.rows - {id} == s.rows - {id} && t.files - {id} == s.files - {id} && t.opening == s.opening && t.tasks == s.tasks
  {
    PlayTwo(s, OpenStage(id), CommitStage(id, transfer, ttl));
    assert s.opening[id := s.now] - {id} == s.opening;
  }

  /** A part is written under the lock and renews the lease and the file. */
  lemma PartIsWritten(s: State, p: Pid, id: StageId, ttl: nat)
    requires Writable(s, id) && Free(s, id) && p !in s.tasks && id in s.files
    ensures Play(s, [Lock(p, Writer(id)), Renew(p, ttl), Unlock(p)]) ==
              s.(rows := s.rows[id := s.rows[id].(expires := s.now + ttl)], files := s.files[id := s.now])
  {
    PlayThree(s, Lock(p, Writer(id)), Renew(p, ttl), Unlock(p));
    WriterLocks(s, p, id);
    WriterRenews(s.(tasks := s.tasks[p := Writer(id)]), p, id, ttl);
    assert s.tasks[p := Writer(id)] - {p} == s.tasks;
  }

  lemma WriterLocks(s: State, p: Pid, id: StageId)
    requires Writable(s, id) && Free(s, id) && p !in s.tasks
    ensures After(s, Lock(p, Writer(id))) == s.(tasks := s.tasks[p := Writer(id)])
  {
  }

  lemma WriterRenews(s: State, p: Pid, id: StageId, ttl: nat)
    requires Writable(s, id) && id in s.files && p in s.tasks && s.tasks[p] == Writer(id)
    ensures After(s, Renew(p, ttl)) == s.(rows := s.rows[id := s.rows[id].(expires := s.now + ttl)], files := s.files[id := s.now])
  {
  }

  /** A stage whose chunk turns out to be published is complete. */
  lemma PublishedIsRecognised(s: State, id: StageId)
    requires id in s.rows
    ensures After(s, Recognise(id)) == s.(rows := s.rows[id := s.rows[id].(progress := Complete)])
  {
  }

  /** A completion that goes through leaves the row complete, and then gives the file back. */
  lemma CompletionEnds(s: State, p: Pid, id: StageId)
    requires Writable(s, id) && Free(s, id) && p !in s.tasks
    ensures var published := Play(s, [Lock(p, Finisher(id)), Publish(p)]);
            && published == s.(rows := s.rows[id := s.rows[id].(progress := Complete)], completed := s.completed + {id})
            && Play(published, [Lock(p, Releaser(id)), Release(p)]) == published.(files := s.files - {id})
  {
    var busy := SetProgress(s, id, Finalizing).(tasks := s.tasks[p := Finisher(id)]);
    var published := s.(rows := s.rows[id := s.rows[id].(progress := Complete)], completed := s.completed + {id});
    PlayTwo(s, Lock(p, Finisher(id)), Publish(p));
    assert After(s, Lock(p, Finisher(id))) == busy;
    assert busy.tasks - {p} == s.tasks && busy.rows[id := busy.rows[id].(progress := Complete)] == published.rows;
    FileReleased(published, p, id);
  }

  lemma FileReleased(s: State, p: Pid, id: StageId)
    requires Free(s, id) && p !in s.tasks && id in s.completed
    ensures Play(s, [Lock(p, Releaser(id)), Release(p)]) == s.(files := s.files - {id})
  {
    PlayTwo(s, Lock(p, Releaser(id)), Release(p));
    assert After(s, Lock(p, Releaser(id))) == s.(tasks := s.tasks[p := Releaser(id)]);
    assert s.tasks[p := Releaser(id)] - {p} == s.tasks;
  }

  /** One that fails leaves everything as it was. */
  lemma FailureChangesNothing(s: State, p: Pid, id: StageId)
    requires Writable(s, id) && Free(s, id) && p !in s.tasks
    ensures Play(s, [Lock(p, Finisher(id)), Fail(p)]) == s
  {
    var busy := SetProgress(s, id, Finalizing).(tasks := s.tasks[p := Finisher(id)]);
    PlayTwo(s, Lock(p, Finisher(id)), Fail(p));
    assert After(s, Lock(p, Finisher(id))) == busy;
    assert busy.tasks - {p} == s.tasks && busy.rows[id := busy.rows[id].(progress := Receiving)] == s.rows;
  }

  /** No upload is stuck: one whose completion has died can be recovered by anybody, to complete if its
      chunk is published and to receiving otherwise. */
  lemma DeadCompletionRecovers(s: State, p: Pid, id: StageId, published: bool)
    requires id in s.rows && s.rows[id].progress == Finalizing && Free(s, id) && p !in s.tasks
    ensures Play(s, [Lock(p, Mender(id)), Mend(p, published)]) ==
              s.(rows := s.rows[id := s.rows[id].(progress := if published then Complete else Receiving)])
  {
    PlayTwo(s, Lock(p, Mender(id)), Mend(p, published));
    assert After(s, Lock(p, Mender(id))) == s.(tasks := s.tasks[p := Mender(id)]);
    assert s.tasks[p := Mender(id)] - {p} == s.tasks;
  }

  /** A beginning that fails leaves no file, and one that dies leaves a file that the sweep takes an hour
      later. */
  lemma FailedBeginningLeavesNothing(s: State, id: StageId)
    requires MayOpen(s, id) && Free(s, id)
    ensures var t := Play(s, [OpenStage(id), AbortStage(id), RemoveAborted(id)]);
            t.files == s.files && t.opening == s.opening && t.rows == s.rows && t.tasks == s.tasks
  {
    PlayThree(s, OpenStage(id), AbortStage(id), RemoveAborted(id));
    var open := Opened(s, id);
    var aborted := open.(opening := s.opening);
    assert After(s, OpenStage(id)) == open;
    assert open.opening - {id} == s.opening;
    assert After(open, AbortStage(id)) == aborted;
    assert aborted.files - {id} == s.files;
  }

  lemma OrphanIsSwept(s: State, p: Pid, id: StageId)
    requires id in s.files && s.files[id] + HOUR <= s.now && id !in s.rows && Free(s, id) && p !in s.tasks && p !in s.looks
    ensures Play(s, [Look(p, id), Lock(p, Sweeper(id, false)), LookUp(p), SweepFile(p)]) == s.(files := s.files - {id})
  {
    PlayFour(s, Look(p, id), Lock(p, Sweeper(id, false)), LookUp(p), SweepFile(p));
    OldFileIsLocked(s, p, id);
    NoRowIsFound(s, p, id);
    OrphanIsTaken(s, p, id);
  }

  lemma OldFileIsLocked(s: State, p: Pid, id: StageId)
    requires id in s.files && s.files[id] + HOUR <= s.now && Free(s, id) && p !in s.tasks && p !in s.looks
    ensures After(After(s, Look(p, id)), Lock(p, Sweeper(id, false))) == s.(tasks := s.tasks[p := Sweeper(id, false)])
  {
    var looked := s.(looks := s.looks[p := id]);
    assert After(s, Look(p, id)) == looked;
    assert looked.looks - {p} == s.looks;
  }

  lemma NoRowIsFound(s: State, p: Pid, id: StageId)
    requires id !in s.rows
    ensures After(s.(tasks := s.tasks[p := Sweeper(id, false)]), LookUp(p)) == s.(tasks := s.tasks[p := Sweeper(id, true)])
  {
    assert s.tasks[p := Sweeper(id, false)][p := Sweeper(id, true)] == s.tasks[p := Sweeper(id, true)];
  }

  lemma OrphanIsTaken(s: State, p: Pid, id: StageId)
    requires p !in s.tasks
    ensures After(s.(tasks := s.tasks[p := Sweeper(id, true)]), SweepFile(p)) == s.(files := s.files - {id})
  {
    assert s.tasks[p := Sweeper(id, true)] - {p} == s.tasks;
  }

  /** From the moment a transfer is being deleted, none of its stages can be written to or completed, and
      all that are free can be removed. */
  lemma DeletionCloses(events: seq<Event>, i: nat, j: nat, id: StageId)
    requires i < j <= |events| && events[i].DeleteTransfer?
    ensures var t := AfterAll(events[..j]);
            id in t.rows && t.rows[id].transfer == events[i].transfer ==>
              !Writable(t, id) && forall p :: !MayLock(t, p, Finisher(id)) && (Free(t, id) ==> MayLock(t, p, Remover(id, Deleting, false)))
  {
    AfterNext(events, i);
    DeletionLasts(events, i + 1, j, events[i].transfer);
  }

  lemma {:induction false} DeletionLasts(events: seq<Event>, i: nat, j: nat, transfer: TransferId)
    requires i <= j <= |events| && transfer in AfterAll(events[..i]).deleting
    ensures transfer in AfterAll(events[..j]).deleting
    decreases j
  {
    if i < j {
      DeletionLasts(events, i, j - 1, transfer);
      AfterNext(events, j - 1);
      DeletionStays(AfterAll(events[..j - 1]), events[j - 1], transfer);
    }
  }

  lemma DeletionStays(s: State, e: Event, transfer: TransferId)
    requires transfer in s.deleting
    ensures transfer in After(s, e).deleting
  {
    if OfTask(e) {
      TasksKeepTables(s, e);
    }
  }

  /** The sweep unlinks only files without a row, unless an identifier was begun twice. */
  lemma SweepTakesOrphansOnly(events: seq<Event>, p: Pid, id: StageId)
    ensures var s, t := AfterAll(events), After(AfterAll(events), SweepFile(p));
            id in s.files && id !in t.files && (id in s.rows || id in s.opening) ==> id in s.reused
  {
    RunsKeepInv(events);
    var s := AfterAll(events);
    if p in s.tasks {
      assert TaskConsistent(s, s.tasks[p]);
    }
  }

  /** What a client may not write to any more is opened for writing again only by the completion that
      failed, or by whoever has found it finalizing with nobody at work; each holds the lock. */
  lemma ReopensForAReason(events: seq<Event>, e: Event, id: StageId)
    requires var s, t := AfterAll(events), After(AfterAll(events), e);
             id in s.rows && s.rows[id].progress != Receiving && id in t.rows && t.rows[id].progress == Receiving
    ensures var s := AfterAll(events);
            (e.Fail? && Doing(s, e.pid, id) && s.tasks[e.pid].Finisher?)
            || (e.Mend? && !e.published && Doing(s, e.pid, id) && s.tasks[e.pid].Mender?)
  {
    RunsKeepInv(events);
    ProgressKept(AfterAll(events), e, id);
  }

  lemma ProgressKept(s: State, e: Event, id: StageId)
    requires id in s.rows && id !in s.opening && s.rows[id].progress != Receiving
    requires id in After(s, e).rows && After(s, e).rows[id].progress == Receiving
    ensures (e.Fail? && Doing(s, e.pid, id) && s.tasks[e.pid].Finisher?)
            || (e.Mend? && !e.published && Doing(s, e.pid, id) && s.tasks[e.pid].Mender?)
  {
    match e
    case Tick(_) =>
    case DeleteTransfer(_) =>
    case OpenStage(_) =>
    case CommitStage(_, _, _) =>
    case AbortStage(_) =>
    case RemoveAborted(_) =>
    case Recognise(_) =>
    case Lock(_, _) =>
    case Renew(_, _) =>
    case Publish(_) =>
    case Fail(_) =>
    case Mend(_, _) =>
    case Release(_) =>
    case TakeFile(_) =>
    case TakeRow(_) =>
    case Look(_, _) =>
    case LookUp(_) =>
    case SweepFile(_) =>
    case Unlock(_) =>
  }

  function Play(s: State, events: seq<Event>): State
    decreases |events|
  {
    if events == [] then s else Play(After(s, events[0]), events[1..])
  }

  lemma {:induction false} AfterAllPlays(events: seq<Event>, more: seq<Event>)
    ensures AfterAll(events + more) == Play(AfterAll(events), more)
    decreases |more|
  {
    if more == [] {
      assert events + more == events;
    } else {
      assert (events + [more[0]])[..|events|] == events;
      assert events + [more[0]] + more[1..] == events + more;
      AfterAllPlays(events + [more[0]], more[1..]);
    }
  }

  lemma PlayTwo(s: State, a: Event, b: Event)
    ensures Play(s, [a, b]) == After(After(s, a), b)
  {
    assert [a, b][1..] == [b] && [b][1..] == [];
    assert Play(After(s, a), [b]) == Play(After(After(s, a), b), []);
  }

  lemma PlayThree(s: State, a: Event, b: Event, c: Event)
    ensures Play(s, [a, b, c]) == After(After(After(s, a), b), c)
  {
    assert [a, b, c][1..] == [b, c];
    PlayTwo(After(s, a), b, c);
  }

  lemma PlayFour(s: State, a: Event, b: Event, c: Event, d: Event)
    ensures Play(s, [a, b, c, d]) == After(After(After(After(s, a), b), c), d)
  {
    assert [a, b, c, d][1..] == [b, c, d];
    PlayThree(After(s, a), b, c, d);
  }

  /** The events of a removal. */
  function Removal(p: Pid, id: StageId, why: Reason): seq<Event>
  {
    [Lock(p, Remover(id, why, false)), TakeFile(p), TakeRow(p)]
  }

  lemma RemovalRemoves(s: State, p: Pid, id: StageId, why: Reason)
    requires p !in s.tasks && MayLock(s, p, Remover(id, why, false))
    ensures Play(s, Removal(p, id, why)) == s.(rows := s.rows - {id}, files := s.files - {id})
  {
    var a, b, c := Lock(p, Remover(id, why, false)), TakeFile(p), TakeRow(p);
    PlayThree(s, a, b, c);
    var locked := s.(tasks := s.tasks[p := Remover(id, why, false)]);
    var unlinked := s.(tasks := s.tasks[p := Remover(id, why, true)], files := s.files - {id});
    assert After(s, a) == locked;
    assert locked.tasks[p := Remover(id, why, true)] == unlinked.tasks;
    assert After(locked, b) == unlinked;
    assert unlinked.tasks - {p} == s.tasks;
  }

  /** A sweeper that has looked at an old file; its stage is destroyed and begun again under the same
      identifier; the sweeper finds no row yet, the row is committed, and the new file is swept. */
  lemma SweepTakesReusedFile(id: StageId) returns (events: seq<Event>)
    ensures var before, after := AfterAll(events), After(AfterAll(events), SweepFile(0));
            Writable(before, id) && id in before.files && Writable(after, id) && id !in after.files
  {
    var first := [OpenStage(id), CommitStage(id, 0, 2 * HOUR), Tick(HOUR), Look(0, id)];
    var second := [OpenStage(id), Lock(0, Sweeper(id, false)), LookUp(0), CommitStage(id, 0, 2 * HOUR)];
    events := first + Removal(1, id, Destroyed) + second;
    ThreeParts(first, Removal(1, id, Destroyed), second);
    LookedState(id);
    StageDestroyed(Play(EMPTY, first), id);
    BegunAgainState(DestroyedOnce(id), id);
    NewFileIsSwept(AfterAll(events), id);
  }

  lemma ThreeParts(a: seq<Event>, b: seq<Event>, c: seq<Event>)
    ensures AfterAll(a + b + c) == Play(Play(Play(EMPTY, a), b), c)
  {
    AfterAllPlays([], a);
    AfterAllPlays(a, b);
    AfterAllPlays(a + b, c);
    assert [] + a == a && AfterAll([]) == EMPTY;
  }

  lemma StageDestroyed(s: State, id: StageId)
    requires s == DestroyedOnce(id).(rows := map[id := Row(2 * HOUR, 0, Receiving)], files := map[id := 0])
    ensures Play(s, Removal(1, id, Destroyed)) == DestroyedOnce(id)
  {
    RemovalRemoves(s, 1, id, Destroyed);
    assert s.rows - {id} == map[] && s.files - {id} == map[];
  }

  lemma NewFileIsSwept(s: State, id: StageId)
    requires s.tasks == map[0 := Sweeper(id, true)] && s.files == map[id := HOUR] && s.now == HOUR && s.deleting == {}
    requires s.rows == map[id := Row(3 * HOUR, 0, Receiving)]
    ensures var t := After(s, SweepFile(0));
            Writable(s, id) && id in s.files && Writable(t, id) && id !in t.files
  {
  }

  /** What remains of a stage that was begun, looked at and destroyed. */
  function DestroyedOnce(id: StageId): State
  {
    EMPTY.(now := HOUR, looks := map[0 := id], begun := {id})
  }

  lemma LookedState(id: StageId)
    ensures Play(EMPTY, [OpenStage(id), CommitStage(id, 0, 2 * HOUR), Tick(HOUR), Look(0, id)]) ==
              DestroyedOnce(id).(rows := map[id := Row(2 * HOUR, 0, Receiving)], files := map[id := 0])
  {
    PlayFour(EMPTY, OpenStage(id), CommitStage(id, 0, 2 * HOUR), Tick(HOUR), Look(0, id));
    var open := EMPTY.(opening := map[id := 0], files := map[id := 0], begun := {id});
    var row := EMPTY.(rows := map[id := Row(2 * HOUR, 0, Receiving)], files := map[id := 0], begun := {id});
    assert After(EMPTY, OpenStage(id)) == open;
    assert open.opening - {id} == map[];
    assert After(open, CommitStage(id, 0, 2 * HOUR)) == row;
  }

  lemma BegunAgainState(s: State, id: StageId)
    requires s == DestroyedOnce(id)
    ensures Play(s, [OpenStage(id), Lock(0, Sweeper(id, false)), LookUp(0), CommitStage(id, 0, 2 * HOUR)]) ==
              s.(rows := map[id := Row(3 * HOUR, 0, Receiving)], files := map[id := HOUR], looks := map[],
                 tasks := map[0 := Sweeper(id, true)], reused := {id})
  {
    PlayFour(s, OpenStage(id), Lock(0, Sweeper(id, false)), LookUp(0), CommitStage(id, 0, 2 * HOUR));
    var open := s.(opening := map[id := HOUR], files := map[id := HOUR], reused := {id});
    var locked := open.(looks := map[], tasks := map[0 := Sweeper(id, false)]);
    var absent := locked.(tasks := map[0 := Sweeper(id, true)]);
    assert s.begun + {id} == s.begun;
    assert After(s, OpenStage(id)) == open;
    assert open.looks - {0} == map[];
    assert After(open, Lock(0, Sweeper(id, false))) == locked;
    assert After(locked, LookUp(0)) == absent;
    assert absent.opening - {id} == map[];
  }

  /** No removal ever leaves a file behind without its row, whoever removes, for whatever reason, and
      wherever it stops: only a beginning that has not committed has a file and no row. */
  lemma RemovalIsOrdered(events: seq<Event>, e: Event, id: StageId)
    requires !e.OpenStage? && !e.AbortStage?
    ensures var s, t := AfterAll(events), After(AfterAll(events), e);
            (id in s.files ==> id in s.rows || id in s.opening) ==> (id in t.files ==> id in t.rows || id in t.opening)
  {
    RunsKeepInv(events);
    var s := AfterAll(events);
    if id in s.rows && id !in After(s, e).rows {
      RowsKept(s, e, id);
      assert TaskConsistent(s, s.tasks[e.pid]);
    } else {
      NoNewFiles(s, e, id);
    }
  }

  lemma NoNewFiles(s: State, e: Event, id: StageId)
    requires !e.OpenStage? && !e.AbortStage?
    ensures id in After(s, e).files ==> id in s.files
    ensures id in s.opening ==> id in After(s, e).opening || id in After(s, e).rows
  {
    if OfTask(e) {
      TasksKeepTables(s, e);
      TasksMakeNoFiles(s, e, id);
    } else {
      TablesMakeNoFiles(s, e, id);
    }
  }

  lemma TasksMakeNoFiles(s: State, e: Event, id: StageId)
    requires OfTask(e)
    ensures id in After(s, e).files ==> id in s.files
  {
  }

  lemma TablesMakeNoFiles(s: State, e: Event, id: StageId)
    requires !OfTask(e) && !e.OpenStage? && !e.AbortStage?
    ensures id in After(s, e).files ==> id in s.files
    ensures id in s.opening ==> id in After(s, e).opening || id in After(s, e).rows
  {
  }

  // ---------------------------------------------------------------- the pruning loop

  /** What pruning sees: when each lease ends, and the files. */
  datatype Area = Area(rows: map<StageId, nat>, files: set<StageId>)

  /** One turn of the loop on a stage that has a row. */
  function PruneTurn(a: Area, now: nat, id: StageId, free: bool, stuck: bool): Area
    requires id in a.rows
  {
    if free && a.rows[id] <= now && !stuck then Area(a.rows - {id}, a.files - {id}) else a
  }

  function Shown(s: State): Area
  {
    Area(map id | id in s.rows :: s.rows[id].expires, s.files.Keys)
  }

  /** A turn of the loop is a removal, unless the file sticks, which ends it under the lock. Either way
      the rows and files are those of the turn, and nothing else has changed. */
  lemma TurnIsEvents(s: State, p: Pid, id: StageId, stuck: bool)
    requires id in s.rows && p !in s.tasks
    ensures var t := Play(s, if stuck then [Lock(p, Remover(id, Expired, false)), Unlock(p)] else Removal(p, id, Expired));
            Shown(t) == PruneTurn(Shown(s), s.now, id, Free(s, id), stuck) && t == s.(rows := t.rows, files := t.files)
  {
    if !MayLock(s, p, Remover(id, Expired, false)) {
      LockRefused(s, p, id, Expired);
    } else if stuck {
      LockGivenUp(s, p, id, Expired);
    } else {
      RemovalRemoves(s, p, id, Expired);
      assert Shown(s.(rows := s.rows - {id}, files := s.files - {id})).rows == Shown(s).rows - {id};
    }
  }

  lemma LockRefused(s: State, p: Pid, id: StageId, why: Reason)
    requires p !in s.tasks && !MayLock(s, p, Remover(id, why, false))
    ensures Play(s, Removal(p, id, why)) == s && Play(s, [Lock(p, Remover(id, why, false)), Unlock(p)]) == s
  {
    PlayThree(s, Lock(p, Remover(id, why, false)), TakeFile(p), TakeRow(p));
    PlayTwo(s, Lock(p, Remover(id, why, false)), Unlock(p));
    assert s.tasks - {p} == s.tasks;
  }

  lemma LockGivenUp(s: State, p: Pid, id: StageId, why: Reason)
    requires p !in s.tasks && MayLock(s, p, Remover(id, why, false))
    ensures Play(s, [Lock(p, Remover(id, why, false)), Unlock(p)]) == s
  {
    PlayTwo(s, Lock(p, Remover(id, why, false)), Unlock(p));
    assert s.tasks[p := Remover(id, why, false)] - {p} == s.tasks;
  }

  class StagingArea {
    var rows: map<StageId, nat>
    var files: set<StageId>

    /** The first loop of ChunkStaging::prune. Between the selection and the turn of a stage others may
        renew it, as `renewed` says; `busy` stages are locked, and unlinking fails for `stuck` ones.
        Exactly the stages that are expired in their turn, free and not stuck are removed, each with its
        file; a stage that cannot be unlinked keeps its row. */
    method Prune(now: nat, busy: set<StageId>, renewed: map<StageId, nat>, stuck: set<StageId>)
      modifies this
      ensures var selected := set id | id in old(rows) && old(rows)[id] <= now;
              var removed := set id | id in selected && id !in busy && id !in stuck && (id in renewed ==> renewed[id] <= now);
              && rows.Keys == old(rows).Keys - removed
              && files == old(files) - removed
              && forall id <- rows :: rows[id] == if id in selected && id !in busy && id in renewed then renewed[id] else old(rows)[id]
    {
      var selected := set id | id in rows && rows[id] <= now;
      ghost var removed := set id | id in selected && id !in busy && id !in stuck && (id in renewed ==> renewed[id] <= now);
      var todo := selected;
      while todo != {}
        invariant todo <= selected
        invariant rows.Keys == old(rows).Keys - (removed - todo)
        invariant files == old(files) - (removed - todo)
        invariant forall id <- rows :: rows[id] ==
                    if id in selected && id !in todo && id !in busy && id in renewed then renewed[id] else old(rows)[id]
      {
        var id :| id in todo;
        todo := todo - {id};
        if id !in busy && id in renewed {
          rows := rows[id := renewed[id]];
        }
        var area := PruneTurn(Area(rows, files), now, id, id !in busy, id in stuck);
        rows, files := area.rows, area.files;
      }
    }
  }
}
