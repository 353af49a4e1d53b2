// DeleteTransfer with the staging and history tables it works on: retryable removal of a transfer,
// run by any number of jobs at once, each of which may fail between any two steps.
module TransferRemoval {
  import opened Options

  type TransferId = nat
  type StageId = nat
  type Copy = nat
  type JobId = nat
  type Account = nat

  datatype Driver = Http | WebRtc

  datatype Transfer = Transfer(deleting: bool, driver: Driver, owner: Option<Account>, created: nat)

  datatype Entry = Entry(owner: Account, created: nat)

  /** Where DeleteTransfer::handle stands; the copies to delete were read together with the transfer. */
  datatype Job =
    | Staging(id: TransferId, todo: set<StageId>, copies: set<Copy>)
    | Copies(id: TransferId, todo: set<Copy>)
    | Finishing(id: TransferId)

  /** A staged file without a row is an orphan, left by an upload that died before its transaction
      committed. A copy is written under an attempt row before it is recorded. `locations` keeps the
      recorded copies of removed transfers too, `removed` their last rows, and `closed` and `purged` the
      deleted accounts and the archive rows whose time was over: they only serve to say what happened. */
  datatype State = State(
    transfers: map<TransferId, Transfer>, history: map<TransferId, Entry>, removed: map<TransferId, Transfer>,
    stages: map<StageId, TransferId>, stageFiles: set<StageId>, orphans: set<StageId>,
    locations: map<Copy, TransferId>, attempts: map<Copy, TransferId>, stored: set<Copy>, jobs: map<JobId, Job>,
    closed: set<Account>, purged: set<TransferId>)

  function StagesOf(s: State, id: TransferId): set<StageId>
  {
    set g | g in s.stages && s.stages[g] == id
  }

  function CopiesOf(s: State, id: TransferId): set<Copy>
  {
    set c | c in s.locations && s.locations[c] == id
  }

  predicate Active(s: State, id: TransferId)
  {
    id in s.transfers && !s.transfers[id].deleting
  }

  predicate AwaitingCleanup(s: State, id: TransferId)
  {
    id in s.transfers && s.transfers[id].deleting
  }

  /** The rows of transfers and of the archive, and what has become of them, are the same. */
  ghost predicate SameRows(s: State, t: State)
  {
    t.transfers == s.transfers && t.removed == s.removed && t.history == s.history && t.closed == s.closed && t.purged == s.purged
  }

  datatype Event =
    | Create(id: TransferId, transfer: Transfer)
    | BeginStage(id: TransferId, stage: StageId)
    | BeginDies(stage: StageId)
    | SweepFile(stage: StageId)
    | Attempt(id: TransferId, copy: Copy)
    | PutCopy(copy: Copy)
    | RecordCopy(copy: Copy)
    | RemoveAttempt(copy: Copy)
    | DropAttempt(copy: Copy)
    | MarkDeleting(id: TransferId)
    | DeleteAccount(owner: Account)
    | Purge(id: TransferId)
    | StartJob(job: JobId, id: TransferId)
    | UnlinkStage(stage: StageId)
    | DropStage(stage: StageId)
    | PassStage(job: JobId, stage: StageId)
    | StagesGone(job: JobId)
    | DeleteCopy(job: JobId, copy: Copy)
    | CopiesGone(job: JobId)
    | Finish(job: JobId)
    | StopJob(job: JobId)

  function SetJob(s: State, j: JobId, job: Job): (t: State)
    ensures SameRows(s, t)
  {
    s.(jobs := s.jobs[j := job])
  }

  /** TransferHistory::archive; the primary key refuses a second row. */
  function Archived(s: State, id: TransferId, t: Transfer): map<TransferId, Entry>
  {
    if t.owner.None? then s.history else s.history[id := Entry(t.owner.value, t.created)]
  }

  // What an event does where it applies; elsewhere it changes nothing.

  predicate MayCreate(s: State, id: TransferId, t: Transfer)
  {
    id !in s.transfers && id !in s.removed && !t.deleting && (t.owner.Some? ==> t.owner.value !in s.closed)
  }

  function Created(s: State, id: TransferId, t: Transfer): State
  {
    if MayCreate(s, id, t) then s.(transfers := s.transfers[id := t]) else s
  }

  predicate MayBegin(s: State, id: TransferId, g: StageId)
  {
    Active(s, id) && g !in s.stages && g !in s.stageFiles && s.transfers[id].driver == Http
  }

  /** An upload adds stages and attempts only while it holds the row of an active transfer. */
  function StageBegun(s: State, id: TransferId, g: StageId): (t: State)
    ensures SameRows(s, t)
  {
    if MayBegin(s, id, g) then s.(stages := s.stages[g := id], stageFiles := s.stageFiles + {g}) else s
  }

  function BeginDied(s: State, g: StageId): (t: State)
    ensures SameRows(s, t)
  {
    if g in s.stages || g in s.stageFiles then s else s.(stageFiles := s.stageFiles + {g}, orphans := s.orphans + {g})
  }

  function Swept(s: State, g: StageId): (t: State)
    ensures SameRows(s, t)
  {
    if g in s.stages then s else s.(stageFiles := s.stageFiles - {g}, orphans := s.orphans - {g})
  }

  predicate MayAttempt(s: State, id: TransferId, c: Copy)
  {
    Active(s, id) && s.transfers[id].driver == Http && c !in s.stored && c !in s.attempts && c !in s.locations
  }

  function Attempted(s: State, id: TransferId, c: Copy): (t: State)
    ensures SameRows(s, t)
  {
    if MayAttempt(s, id, c) then s.(attempts := s.attempts[c := id]) else s
  }

  function CopyPut(s: State, c: Copy): (t: State)
    ensures SameRows(s, t)
  {
    if c in s.attempts then s.(stored := s.stored + {c}) else s
  }

  /** The attempt becomes a location, unless the transfer is no longer active. */
  function CopyRecorded(s: State, c: Copy): (t: State)
    ensures SameRows(s, t)
  {
    if c !in s.attempts || c !in s.stored || !Active(s, s.attempts[c]) then s
    else s.(locations := s.locations[c := s.attempts[c]], attempts := s.attempts - {c})
  }

  /** An attempt is removed, by its request or by the reaper, object first and row second. */
  function AttemptRemoved(s: State, c: Copy): (t: State)
    ensures SameRows(s, t)
  {
    if c in s.attempts then s.(stored := s.stored - {c}) else s
  }

  function AttemptDropped(s: State, c: Copy): (t: State)
    ensures SameRows(s, t)
  {
    if c in s.stored then s else s.(attempts := s.attempts - {c})
  }

  function MarkedDeleting(s: State, id: TransferId): State
  {
    if !Active(s, id) then s else s.(transfers := s.transfers[id := s.transfers[id].(deleting := true)])
  }

  predicate Owned(s: State, id: TransferId, owner: Account)
  {
    id in s.transfers && s.transfers[id].owner == Some(owner)
  }

  /** One transaction marks the account's transfers, takes their owner away with the account, and lets
      its archive rows go. */
  function AccountDeleted(s: State, owner: Account): State
  {
    s.(transfers := map id <- s.transfers ::
         if Owned(s, id, owner) then s.transfers[id].(deleting := true, owner := None) else s.transfers[id],
       history := map id <- s.history | s.history[id].owner != owner :: s.history[id],
       closed := s.closed + {owner})
  }

  /** The retention of an archive row is over: the listing leaves it out and the daily command deletes it. */
  function Purged(s: State, id: TransferId): State
  {
    if id in s.history then s.(history := s.history - {id}, purged := s.purged + {id}) else s
  }

  function Loaded(s: State, id: TransferId): Job
    requires AwaitingCleanup(s, id)
  {
    if s.transfers[id].driver == WebRtc then Finishing(id) else Staging(id, StagesOf(s, id), CopiesOf(s, id))
  }

  /** A stage is removed in two steps under its locks, by a job, by pruning or by its client: the file
      is unlinked, then the row deleted. */
  function StageUnlinked(s: State, g: StageId): (t: State)
    ensures SameRows(s, t)
  {
    if g in s.stages then s.(stageFiles := s.stageFiles - {g}) else s
  }

  function StageDropped(s: State, g: StageId): (t: State)
    ensures SameRows(s, t)
  {
    if g in s.stageFiles then s else s.(stages := s.stages - {g})
  }

  /** The next state of a job for the events that only move the job itself. */
  function NextJob(s: State, job: Job, e: Event): Job
  {
    match e
    case PassStage(_, g) => if job.Staging? && g !in s.stages then job.(todo := job.todo - {g}) else job
    case StagesGone(_) => if job.Staging? && job.todo == {} then Copies(job.id, job.copies) else job
    case CopiesGone(_) => if job.Copies? && job.todo == {} then Finishing(job.id) else job
    case _ => job
  }

  function CopyDeleted(s: State, j: JobId, c: Copy): (t: State)
    ensures SameRows(s, t)
  {
    if j in s.jobs && s.jobs[j].Copies? && c in s.jobs[j].todo
    then SetJob(s, j, Copies(s.jobs[j].id, s.jobs[j].todo - {c})).(stored := s.stored - {c}) else s
  }

  /** One transaction: archive and delete the row, unless another job has done so. */
  function Finished(s: State, id: TransferId): State
  {
    if !AwaitingCleanup(s, id) || (s.transfers[id].owner.Some? && id in s.history) then s
    else s.(history := Archived(s, id, s.transfers[id]), transfers := s.transfers - {id},
            removed := s.removed[id := s.transfers[id]])
  }

  predicate OfUpload(e: Event)
  {
    e.BeginStage? || e.BeginDies? || e.SweepFile? || e.Attempt? || e.PutCopy? || e.RecordCopy?
    || e.RemoveAttempt? || e.DropAttempt? || e.UnlinkStage? || e.DropStage?
  }

  predicate OfRow(e: Event)
  {
    e.Create? || e.MarkDeleting? || e.DeleteAccount? || e.Purge?
  }

  function AfterUpload(s: State, e: Event): (t: State)
    requires OfUpload(e)
    ensures SameRows(s, t)
  {
    match e
    case BeginStage(id, g) => StageBegun(s, id, g)
    case BeginDies(g) => BeginDied(s, g)
    case SweepFile(g) => Swept(s, g)
    case Attempt(id, c) => Attempted(s, id, c)
    case PutCopy(c) => CopyPut(s, c)
    case RecordCopy(c) => CopyRecorded(s, c)
    case RemoveAttempt(c) => AttemptRemoved(s, c)
    case DropAttempt(c) => AttemptDropped(s, c)
    case UnlinkStage(g) => StageUnlinked(s, g)
    case DropStage(g) => StageDropped(s, g)
  }

  function AfterRow(s: State, e: Event): State
    requires OfRow(e)
  {
    match e
    case Create(id, t) => Created(s, id, t)
    case MarkDeleting(id) => MarkedDeleting(s, id)
    case DeleteAccount(owner) => AccountDeleted(s, owner)
    case Purge(id) => Purged(s, id)
  }

  function AfterJob(s: State, e: Event): State
    requires !OfUpload(e) && !OfRow(e)
  {
    match e
    case StartJob(j, id) => if j in s.jobs || !AwaitingCleanup(s, id) then s else SetJob(s, j, Loaded(s, id))
    case DeleteCopy(j, c) => CopyDeleted(s, j, c)
    case Finish(j) => if j !in s.jobs || !s.jobs[j].Finishing? then s else StopJobs(Finished(s, s.jobs[j].id), j)
    case StopJob(j) => StopJobs(s, j)
    case PassStage(j, _) => if j !in s.jobs then s else SetJob(s, j, NextJob(s, s.jobs[j], e))
    case StagesGone(j) => if j !in s.jobs then s else SetJob(s, j, NextJob(s, s.jobs[j], e))
    case CopiesGone(j) => if j !in s.jobs then s else SetJob(s, j, NextJob(s, s.jobs[j], e))
  }

  function After(s: State, e: Event): State
  {
    if OfUpload(e) then AfterUpload(s, e) else if OfRow(e) then AfterRow(s, e) else AfterJob(s, e)
  }

  function StopJobs(s: State, j: JobId): (t: State)
    ensures SameRows(s, t)
  {
    s.(jobs := s.jobs - {j})
  }

  const EMPTY: State := State(map[], map[], map[], map[], {}, {}, map[], map[], {}, map[], {}, {})

  function AfterAll(events: seq<Event>): State
  {
    if events == [] then EMPTY else After(AfterAll(events[..|events| - 1]), events[|events| - 1])
  }

  // ---------------------------------------------------------------- the invariant

  ghost predicate StagesWithin(s: State, id: TransferId, todo: set<StageId>)
  {
    forall g <- s.stages | s.stages[g] == id :: g in todo
  }

  ghost predicate StoredWithin(s: State, id: TransferId, todo: set<Copy>)
  {
    forall c <- s.stored | c in s.locations && s.locations[c] == id :: c in todo
  }

  /** Nothing staged and nothing stored is left of this transfer. */
  ghost predicate NoCiphertext(s: State, id: TransferId)
  {
    StagesWithin(s, id, {}) && StoredWithin(s, id, {})
  }

  ghost predicate JobConsistent(s: State, job: Job)
  {
    (job.id in s.removed || AwaitingCleanup(s, job.id))
    && match job
       case Staging(id, todo, copies) => StagesWithin(s, id, todo) && StoredWithin(s, id, copies)
       case Copies(id, todo) => StagesWithin(s, id, {}) && StoredWithin(s, id, todo)
       case Finishing(id) => NoCiphertext(s, id)
  }

  ghost predicate JobsConsistent(s: State)
  {
    forall j <- s.jobs :: JobConsistent(s, s.jobs[j])
  }

  ghost predicate RemovedAreEmpty(s: State)
  {
    forall id <- s.removed :: NoCiphertext(s, id)
  }

  ghost predicate HttpOrRemoved(s: State, id: TransferId)
  {
    if id in s.transfers then s.transfers[id].driver == Http else id in s.removed
  }

  ghost predicate UploadsConsistent(s: State)
  {
    s.stageFiles <= s.stages.Keys + s.orphans && s.orphans <= s.stageFiles && s.stages.Keys !! s.orphans
    && (forall g <- s.stages :: s.stages[g] in s.transfers && s.transfers[s.stages[g]].driver == Http)
    && (forall c <- s.locations :: HttpOrRemoved(s, s.locations[c]))
  }

  ghost predicate Accounted(s: State, c: Copy)
  {
    c in s.attempts || (c in s.locations && s.locations[c] in s.transfers)
  }

  /** Every stored object has an attempt row or is a recorded copy of a transfer that still exists, and
      never both. */
  ghost predicate CopiesConsistent(s: State)
  {
    (forall c <- s.stored :: Accounted(s, c))
    && s.attempts.Keys !! s.locations.Keys
    && (forall c <- s.attempts :: HttpOrRemoved(s, s.attempts[c]))
  }

  /** An owned transfer was archived under its owner; the row stays until its time is over or the
      account is deleted. */
  ghost predicate HistoryConsistent(s: State)
  {
    s.transfers.Keys !! s.removed.Keys
    && (forall id <- s.history :: id in s.removed)
    && (forall id <- s.removed ::
          id in s.history <==> s.removed[id].owner.Some? && s.removed[id].owner.value !in s.closed && id !in s.purged)
    && (forall id <- s.history :: s.history[id] == Entry(s.removed[id].owner.value, s.removed[id].created))
    && (forall id <- s.transfers :: s.transfers[id].owner.Some? ==> s.transfers[id].owner.value !in s.closed)
    && (forall id <- s.purged :: id in s.removed)
  }

  ghost predicate Inv(s: State)
  {
    UploadsConsistent(s) && HistoryConsistent(s) && CiphertextConsistent(s) && CopiesConsistent(s)
  }

  /** Ciphertext only went away, and no transfer came back. */
  ghost predicate OnlyLess(s: State, t: State, id: TransferId)
  {
    (forall g <- t.stages | t.stages[g] == id :: g in s.stages && s.stages[g] == id)
    && (forall c <- t.stored | c in t.locations && t.locations[c] == id :: c in s.stored && c in s.locations && s.locations[c] == id)
    && (id in s.removed || AwaitingCleanup(s, id) ==> id in t.removed || AwaitingCleanup(t, id))
  }

  lemma JobStaysConsistent(s: State, t: State, job: Job)
    requires JobConsistent(s, job) && OnlyLess(s, t, job.id)
    ensures JobConsistent(t, job)
  {
  }

  lemma RemovedStaysEmpty(s: State, t: State, id: TransferId)
    requires NoCiphertext(s, id) && OnlyLess(s, t, id)
    ensures NoCiphertext(t, id)
  {
  }

  ghost predicate CiphertextConsistent(s: State)
  {
    RemovedAreEmpty(s) && JobsConsistent(s)
  }

  lemma JobsStayConsistent(s: State, t: State)
    requires CiphertextConsistent(s) && t.removed == s.removed && t.jobs == s.jobs
    requires forall id | id in s.removed || AwaitingCleanup(s, id) :: OnlyLess(s, t, id)
    ensures CiphertextConsistent(t)
  {
    forall j <- t.jobs ensures JobConsistent(t, t.jobs[j]) {
      assert JobConsistent(s, s.jobs[j]);
      JobStaysConsistent(s, t, s.jobs[j]);
    }
    forall id <- t.removed ensures NoCiphertext(t, id) {
      RemovedStaysEmpty(s, t, id);
    }
  }

  // ---------------------------------------------------------------- what an event leaves alone

  ghost predicate SameStages(s: State, t: State)
  {
    t.stages == s.stages && t.stageFiles == s.stageFiles && t.orphans == s.orphans
  }

  ghost predicate SameCopies(s: State, t: State)
  {
    t.locations == s.locations && t.attempts == s.attempts && t.stored == s.stored
  }

  /** Transfers were only added, and only such as nothing is known about. */
  ghost predicate TransfersGrow(s: State, t: State)
  {
    t.removed == s.removed
    && (forall id <- s.transfers :: id in t.transfers && t.transfers[id].driver == s.transfers[id].driver)
    && (forall id <- t.transfers :: id in s.transfers || id !in s.removed)
  }

  lemma HistoryStays(s: State, t: State)
    requires HistoryConsistent(s) && SameRows(s, t)
    ensures HistoryConsistent(t)
  {
  }

  lemma UploadsStay(s: State, t: State)
    requires UploadsConsistent(s) && SameStages(s, t) && t.locations == s.locations && TransfersGrow(s, t)
    ensures UploadsConsistent(t)
  {
  }

  lemma CopiesStay(s: State, t: State)
    requires CopiesConsistent(s) && SameCopies(s, t) && TransfersGrow(s, t)
    ensures CopiesConsistent(t)
  {
  }

  /** Where only stages, copies or jobs change, the rows need no more attention. */
  lemma RowsStaySame(s: State, t: State)
    requires Inv(s) && SameRows(s, t)
    requires UploadsConsistent(t) && CiphertextConsistent(t) && CopiesConsistent(t)
    ensures Inv(t)
  {
    HistoryStays(s, t);
  }

  // ---------------------------------------------------------------- transfers

  /** Where only rows of transfers change. */
  lemma TransfersKeepInv(s: State, t: State)
    requires Inv(s) && SameStages(s, t) && SameCopies(s, t) && TransfersGrow(s, t) && t.jobs == s.jobs && HistoryConsistent(t)
    requires forall id | AwaitingCleanup(s, id) :: AwaitingCleanup(t, id)
    ensures Inv(t)
  {
    UploadsStay(s, t);
    CopiesStay(s, t);
    JobsStayConsistent(s, t);
  }

  lemma CreatedHistory(s: State, id: TransferId, t: Transfer)
    requires HistoryConsistent(s)
    ensures HistoryConsistent(Created(s, id, t))
  {
  }

  lemma CreatedKeepsInv(s: State, id: TransferId, t: Transfer)
    requires Inv(s)
    ensures Inv(Created(s, id, t))
  {
    if MayCreate(s, id, t) {
      CreatedHistory(s, id, t);
      TransfersKeepInv(s, Created(s, id, t));
    }
  }

  lemma MarkedHistory(s: State, id: TransferId)
    requires HistoryConsistent(s)
    ensures HistoryConsistent(MarkedDeleting(s, id))
  {
  }

  lemma MarkedDeletingKeepsInv(s: State, id: TransferId)
    requires Inv(s)
    ensures Inv(MarkedDeleting(s, id))
  {
    if Active(s, id) {
      MarkedHistory(s, id);
      TransfersKeepInv(s, MarkedDeleting(s, id));
    }
  }

  lemma AccountHistory(s: State, owner: Account)
    requires HistoryConsistent(s)
    ensures HistoryConsistent(AccountDeleted(s, owner))
  {
  }

  lemma AccountDeletedKeepsInv(s: State, owner: Account)
    requires Inv(s)
    ensures Inv(AccountDeleted(s, owner))
  {
    AccountHistory(s, owner);
    TransfersKeepInv(s, AccountDeleted(s, owner));
  }

  lemma PurgedHistory(s: State, id: TransferId)
    requires HistoryConsistent(s)
    ensures HistoryConsistent(Purged(s, id))
  {
  }

  lemma PurgedKeepsInv(s: State, id: TransferId)
    requires Inv(s)
    ensures Inv(Purged(s, id))
  {
    PurgedHistory(s, id);
    TransfersKeepInv(s, Purged(s, id));
  }

  // ---------------------------------------------------------------- stages

  lemma StagesKeepInv(s: State, t: State)
    requires Inv(s) && SameRows(s, t) && SameCopies(s, t) && t.jobs == s.jobs && UploadsConsistent(t)
    requires forall g <- t.stages :: (g in s.stages && t.stages[g] == s.stages[g]) || Active(s, t.stages[g])
    ensures Inv(t)
  {
    CopiesStay(s, t);
    StagesOnlyLess(s, t);
    JobsStayConsistent(s, t);
    RowsStaySame(s, t);
  }

  lemma StagesOnlyLess(s: State, t: State)
    requires SameRows(s, t) && SameCopies(s, t) && HistoryConsistent(s)
    requires forall g <- t.stages :: (g in s.stages && t.stages[g] == s.stages[g]) || Active(s, t.stages[g])
    ensures forall id | id in s.removed || AwaitingCleanup(s, id) :: OnlyLess(s, t, id)
  {
  }

  lemma BegunUploads(s: State, id: TransferId, g: StageId)
    requires UploadsConsistent(s) && MayBegin(s, id, g)
    ensures UploadsConsistent(StageBegun(s, id, g))
  {
  }

  lemma StageBegunKeepsInv(s: State, id: TransferId, g: StageId)
    requires Inv(s)
    ensures Inv(StageBegun(s, id, g))
  {
    if MayBegin(s, id, g) {
      BegunUploads(s, id, g);
      StagesKeepInv(s, StageBegun(s, id, g));
    }
  }

  lemma DiedUploads(s: State, g: StageId)
    requires UploadsConsistent(s) && g !in s.stages && g !in s.stageFiles
    ensures UploadsConsistent(BeginDied(s, g))
  {
  }

  lemma BeginDiedKeepsInv(s: State, g: StageId)
    requires Inv(s)
    ensures Inv(BeginDied(s, g))
  {
    if g !in s.stages && g !in s.stageFiles {
      DiedUploads(s, g);
      StagesKeepInv(s, BeginDied(s, g));
    }
  }

  lemma SweptUploads(s: State, g: StageId)
    requires UploadsConsistent(s) && g !in s.stages
    ensures UploadsConsistent(Swept(s, g))
  {
  }

  lemma SweptKeepsInv(s: State, g: StageId)
    requires Inv(s)
    ensures Inv(Swept(s, g))
  {
    if g !in s.stages {
      SweptUploads(s, g);
      StagesKeepInv(s, Swept(s, g));
    }
  }

  lemma UnlinkedUploads(s: State, g: StageId)
    requires UploadsConsistent(s) && g in s.stages
    ensures UploadsConsistent(StageUnlinked(s, g))
  {
  }

  lemma StageUnlinkedKeepsInv(s: State, g: StageId)
    requires Inv(s)
    ensures Inv(StageUnlinked(s, g))
  {
    if g in s.stages {
      UnlinkedUploads(s, g);
      StagesKeepInv(s, StageUnlinked(s, g));
    }
  }

  lemma DroppedUploads(s: State, g: StageId)
    requires UploadsConsistent(s) && g !in s.stageFiles
    ensures UploadsConsistent(StageDropped(s, g))
  {
  }

  lemma StageDroppedKeepsInv(s: State, g: StageId)
    requires Inv(s)
    ensures Inv(StageDropped(s, g))
  {
    if g !in s.stageFiles {
      DroppedUploads(s, g);
      StagesKeepInv(s, StageDropped(s, g));
    }
  }

  // ---------------------------------------------------------------- copies

  lemma CopiesKeepInv(s: State, t: State)
    requires Inv(s) && SameRows(s, t) && SameStages(s, t) && t.jobs == s.jobs && UploadsConsistent(t) && CopiesConsistent(t)
    requires forall id | id in s.removed || AwaitingCleanup(s, id) :: OnlyLess(s, t, id)
    ensures Inv(t)
  {
    JobsStayConsistent(s, t);
    RowsStaySame(s, t);
  }

  lemma AttemptedKeepsInv(s: State, id: TransferId, c: Copy)
    requires Inv(s)
    ensures Inv(Attempted(s, id, c))
  {
    if MayAttempt(s, id, c) {
      var t := Attempted(s, id, c);
      UploadsStay(s, t);
      AttemptedCopies(s, id, c);
      CopiesKeepInv(s, t);
    }
  }

  lemma AttemptedCopies(s: State, id: TransferId, c: Copy)
    requires CopiesConsistent(s) && MayAttempt(s, id, c)
    ensures CopiesConsistent(Attempted(s, id, c))
  {
  }

  /** Objects under an attempt come and go. */
  lemma ObjectsMove(s: State, t: State, c: Copy)
    requires CopiesConsistent(s) && c in s.attempts && (t == s.(stored := s.stored + {c}) || t == s.(stored := s.stored - {c}))
    ensures CopiesConsistent(t)
    ensures forall id :: OnlyLess(s, t, id)
  {
  }

  lemma CopyPutKeepsInv(s: State, c: Copy)
    requires Inv(s)
    ensures Inv(CopyPut(s, c))
  {
    if c in s.attempts {
      var t := CopyPut(s, c);
      UploadsStay(s, t);
      ObjectsMove(s, t, c);
      CopiesKeepInv(s, t);
    }
  }

  lemma AttemptRemovedKeepsInv(s: State, c: Copy)
    requires Inv(s)
    ensures Inv(AttemptRemoved(s, c))
  {
    if c in s.attempts {
      var t := AttemptRemoved(s, c);
      UploadsStay(s, t);
      ObjectsMove(s, t, c);
      CopiesKeepInv(s, t);
    }
  }

  lemma AttemptDroppedKeepsInv(s: State, c: Copy)
    requires Inv(s)
    ensures Inv(AttemptDropped(s, c))
  {
    if c !in s.stored {
      var t := AttemptDropped(s, c);
      UploadsStay(s, t);
      DroppedCopies(s, c);
      CopiesKeepInv(s, t);
    }
  }

  lemma DroppedCopies(s: State, c: Copy)
    requires CopiesConsistent(s) && c !in s.stored
    ensures CopiesConsistent(AttemptDropped(s, c))
  {
  }

  lemma CopyRecordedKeepsInv(s: State, c: Copy)
    requires Inv(s)
    ensures Inv(CopyRecorded(s, c))
  {
    var t := CopyRecorded(s, c);
    if t != s {
      RecordedCopies(s, c);
      RecordedUploads(s, c);
      RecordedOnlyLess(s, c);
      CopiesKeepInv(s, t);
    }
  }

  lemma RecordedCopies(s: State, c: Copy)
    requires CopiesConsistent(s) && CopyRecorded(s, c) != s
    ensures CopiesConsistent(CopyRecorded(s, c))
  {
  }

  lemma RecordedUploads(s: State, c: Copy)
    requires UploadsConsistent(s) && CopiesConsistent(s)
    ensures UploadsConsistent(CopyRecorded(s, c))
  {
  }

  lemma RecordedOnlyLess(s: State, c: Copy)
    requires HistoryConsistent(s)
    ensures forall id | id in s.removed || AwaitingCleanup(s, id) :: OnlyLess(s, CopyRecorded(s, c), id)
  {
  }

  // ---------------------------------------------------------------- jobs

  /** Jobs move on their own without touching a table. */
  lemma SetJobKeepsInv(s: State, j: JobId, job: Job)
    requires Inv(s) && JobConsistent(s, job)
    ensures Inv(SetJob(s, j, job))
  {
    TablesOnly(s, SetJob(s, j, job));
  }

  lemma StopJobsKeepsInv(s: State, j: JobId)
    requires Inv(s)
    ensures Inv(StopJobs(s, j))
  {
    TablesOnly(s, StopJobs(s, j));
  }

  lemma JobsOnly(s: State, t: State)
    requires CiphertextConsistent(s) && t == s.(jobs := t.jobs)
    requires forall j <- t.jobs :: JobConsistent(s, t.jobs[j])
    ensures CiphertextConsistent(t)
  {
    forall j <- t.jobs ensures JobConsistent(t, t.jobs[j]) {
      assert JobConsistent(s, t.jobs[j]);
    }
    forall id <- t.removed ensures NoCiphertext(t, id) {
      assert NoCiphertext(s, id);
    }
  }

  lemma TablesOnly(s: State, t: State)
    requires Inv(s) && t == s.(jobs := t.jobs)
    requires forall j <- t.jobs :: JobConsistent(s, t.jobs[j])
    ensures Inv(t)
  {
    JobsOnly(s, t);
    UploadsStay(s, t);
    CopiesStay(s, t);
    RowsStaySame(s, t);
  }

  lemma LoadedConsistent(s: State, id: TransferId)
    requires UploadsConsistent(s) && AwaitingCleanup(s, id)
    ensures JobConsistent(s, Loaded(s, id))
  {
  }

  lemma NextJobConsistent(s: State, job: Job, e: Event)
    requires JobConsistent(s, job)
    ensures JobConsistent(s, NextJob(s, job, e))
  {
  }

  lemma FewerStored(s: State, c: Copy)
    requires CopiesConsistent(s)
    ensures CopiesConsistent(s.(stored := s.stored - {c}))
    ensures forall id :: OnlyLess(s, s.(stored := s.stored - {c}), id)
  {
  }

  lemma CopyDeletedKeepsInv(s: State, j: JobId, c: Copy)
    requires Inv(s)
    ensures Inv(CopyDeleted(s, j, c))
  {
    if j in s.jobs && s.jobs[j].Copies? && c in s.jobs[j].todo {
      var fewer := s.(stored := s.stored - {c});
      FewerStored(s, c);
      UploadsStay(s, fewer);
      CopiesKeepInv(s, fewer);
      DeletedJob(s, s.jobs[j], c);
      assert JobsConsistent(s);
      SetJobKeepsInv(fewer, j, Copies(s.jobs[j].id, s.jobs[j].todo - {c}));
    }
  }

  lemma DeletedJob(s: State, job: Job, c: Copy)
    requires job.Copies?
    ensures JobConsistent(s, job) ==> JobConsistent(s.(stored := s.stored - {c}), Copies(job.id, job.todo - {c}))
  {
  }

  lemma FinishedKeepsInv(s: State, id: TransferId)
    requires Inv(s) && NoCiphertext(s, id)
    ensures Inv(Finished(s, id))
  {
    if Finished(s, id) != s {
      FinishedHistory(s, id);
      FinishedUploads(s, id);
      FinishedCiphertext(s, id);
      FinishedCopies(s, id);
    }
  }

  lemma FinishedHistory(s: State, id: TransferId)
    requires HistoryConsistent(s)
    ensures HistoryConsistent(Finished(s, id))
  {
  }

  lemma FinishedUploads(s: State, id: TransferId)
    requires UploadsConsistent(s) && StagesWithin(s, id, {})
    ensures UploadsConsistent(Finished(s, id))
  {
  }

  lemma FinishedCiphertext(s: State, id: TransferId)
    requires CiphertextConsistent(s) && NoCiphertext(s, id)
    ensures CiphertextConsistent(Finished(s, id))
  {
    var t := Finished(s, id);
    forall j <- t.jobs ensures JobConsistent(t, t.jobs[j]) {
      assert JobConsistent(s, s.jobs[j]);
      JobStaysConsistent(s, t, s.jobs[j]);
    }
    forall i <- t.removed ensures NoCiphertext(t, i) {
      RemovedStaysEmpty(s, t, i);
    }
  }

  lemma FinishedCopies(s: State, id: TransferId)
    requires CopiesConsistent(s) && StoredWithin(s, id, {})
    ensures CopiesConsistent(Finished(s, id))
  {
  }

  lemma MoveKeepsInv(s: State, j: JobId, e: Event)
    requires Inv(s)
    ensures j in s.jobs ==> Inv(SetJob(s, j, NextJob(s, s.jobs[j], e)))
  {
    if j in s.jobs {
      assert JobConsistent(s, s.jobs[j]);
      NextJobConsistent(s, s.jobs[j], e);
      SetJobKeepsInv(s, j, NextJob(s, s.jobs[j], e));
    }
  }

  lemma StartKeepsInv(s: State, j: JobId, id: TransferId)
    requires Inv(s)
    ensures Inv(After(s, StartJob(j, id)))
  {
    if j !in s.jobs && AwaitingCleanup(s, id) {
      LoadedConsistent(s, id);
      SetJobKeepsInv(s, j, Loaded(s, id));
    }
  }

  lemma FinishKeepsInv(s: State, j: JobId)
    requires Inv(s)
    ensures Inv(After(s, Finish(j)))
  {
    if j in s.jobs && s.jobs[j].Finishing? {
      assert JobConsistent(s, s.jobs[j]);
      FinishedKeepsInv(s, s.jobs[j].id);
      StopJobsKeepsInv(Finished(s, s.jobs[j].id), j);
    }
  }

  lemma UploadEventKeepsInv(s: State, e: Event)
    requires Inv(s) && OfUpload(e)
    ensures Inv(AfterUpload(s, e))
  {
    match e
    case BeginStage(id, g) => StageBegunKeepsInv(s, id, g);
    case BeginDies(g) => BeginDiedKeepsInv(s, g);
    case SweepFile(g) => SweptKeepsInv(s, g);
    case Attempt(id, c) => AttemptedKeepsInv(s, id, c);
    case PutCopy(c) => CopyPutKeepsInv(s, c);
    case RecordCopy(c) => CopyRecordedKeepsInv(s, c);
    case RemoveAttempt(c) => AttemptRemovedKeepsInv(s, c);
    case DropAttempt(c) => AttemptDroppedKeepsInv(s, c);
    case UnlinkStage(g) => StageUnlinkedKeepsInv(s, g);
    case DropStage(g) => StageDroppedKeepsInv(s, g);
  }

  lemma RowEventKeepsInv(s: State, e: Event)
    requires Inv(s) && OfRow(e)
    ensures Inv(AfterRow(s, e))
  {
    match e
    case Create(id, t) => CreatedKeepsInv(s, id, t);
    case MarkDeleting(id) => MarkedDeletingKeepsInv(s, id);
    case DeleteAccount(owner) => AccountDeletedKeepsInv(s, owner);
    case Purge(id) => PurgedKeepsInv(s, id);
  }

  lemma JobEventKeepsInv(s: State, e: Event)
    requires Inv(s) && !OfUpload(e) && !OfRow(e)
    ensures Inv(AfterJob(s, e))
  {
    match e
    case StartJob(j, id) => StartKeepsInv(s, j, id);
    case DeleteCopy(j, c) => CopyDeletedKeepsInv(s, j, c);
    case Finish(j) => FinishKeepsInv(s, j);
    case StopJob(j) => StopJobsKeepsInv(s, j);
    case PassStage(j, _) => MoveKeepsInv(s, j, e);
    case StagesGone(j) => MoveKeepsInv(s, j, e);
    case CopiesGone(j) => MoveKeepsInv(s, j, e);
  }

  lemma EventKeepsInv(s: State, e: Event)
    requires Inv(s)
    ensures Inv(After(s, e))
  {
    if OfUpload(e) {
      UploadEventKeepsInv(s, e);
    } else if OfRow(e) {
      RowEventKeepsInv(s, e);
    } else {
      JobEventKeepsInv(s, e);
    }
  }

  lemma {:induction false} RunsKeepInv(events: seq<Event>)
    ensures Inv(AfterAll(events))
  {
    if events != [] {
      RunsKeepInv(events[..|events| - 1]);
      EventKeepsInv(AfterAll(events[..|events| - 1]), events[|events| - 1]);
    }
  }

  // ---------------------------------------------------------------- main results

  /** However jobs fail, repeat and overlap: a transfer whose row is gone has left no stage row and no
      recorded copy in the store. It has one archive row, with its owner and creation time, exactly if
      it was owned when it went, its account still stands, and the row's time is not over; and no
      transfer is both live and archived. */
  lemma RemovalIsComplete(events: seq<Event>, id: TransferId)
    ensures var s := AfterAll(events);
            && (id in s.removed ==>
                  && id !in s.transfers
                  && (forall g <- s.stages :: s.stages[g] != id)
                  && (forall c <- CopiesOf(s, id) :: c !in s.stored)
                  && (id in s.history <==> s.removed[id].owner.Some? && s.removed[id].owner.value !in s.closed && id !in s.purged)
                  && (id in s.history ==> s.history[id] == Entry(s.removed[id].owner.value, s.removed[id].created)))
            && !(id in s.transfers && id in s.history)
            && (id in s.history ==> id in s.removed)
  {
    RunsKeepInv(events);
    var s := AfterAll(events);
    if id in s.removed {
      assert NoCiphertext(s, id);
    }
  }

  /** Nothing is forgotten in the store: every object is a recorded copy of a transfer that still exists
      or has an attempt row that the reaper works from, and every staged file has the row of a transfer
      that still exists or is an orphan that the sweep works from. */
  lemma NothingIsForgotten(events: seq<Event>)
    ensures var s := AfterAll(events);
            && (forall c <- s.stored :: c in s.attempts || (c in s.locations && s.locations[c] in s.transfers))
            && (forall g <- s.stageFiles :: g in s.orphans || (g in s.stages && s.stages[g] in s.transfers))
  {
    RunsKeepInv(events);
  }

  /** A transfer row disappears only through the finishing transaction, and once gone stays gone. An
      archive row disappears only with its account or when its time is over. */
  lemma RowsVanishOnlyByFinishing(events: seq<Event>, e: Event, id: TransferId)
    ensures var s, t := AfterAll(events), After(AfterAll(events), e);
            && (id in s.transfers && id !in t.transfers ==>
                  e.Finish? && s.transfers[id].deleting && id in t.removed && t.removed[id] == s.transfers[id])
            && (id in s.removed ==> id in t.removed && t.removed[id] == s.removed[id])
            && (id in s.history && id in t.history ==> t.history[id] == s.history[id])
            && (id in s.history && id !in t.history ==> e == Purge(id) || e == DeleteAccount(s.history[id].owner))
  {
    RunsKeepInv(events);
    RowsStay(AfterAll(events), e, id);
  }

  ghost predicate RowKept(s: State, t: State, e: Event, id: TransferId)
  {
    (id in s.transfers ==> id in t.transfers)
    && (id in s.removed ==> id in t.removed && t.removed[id] == s.removed[id])
    && (id in s.history ==> if id in t.history then t.history[id] == s.history[id]
                            else e == Purge(id) || e == DeleteAccount(s.history[id].owner))
  }

  lemma FinishedJob(s: State, j: JobId)
    requires j in s.jobs && s.jobs[j].Finishing?
    ensures var t, u := Finished(s, s.jobs[j].id), After(s, Finish(j));
            SameRows(t, u)
  {
    assert After(s, Finish(j)) == AfterJob(s, Finish(j));
  }

  lemma FinishedRows(s: State, done: TransferId, e: Event, id: TransferId)
    requires HistoryConsistent(s)
    ensures var t := Finished(s, done);
            RowKept(s, t, e, id)
            || (id == done && id in s.transfers && id !in s.removed && s.transfers[id].deleting && id in t.removed && t.removed[id] == s.transfers[id] && id !in s.history)
  {
  }

  lemma RowsStay(s: State, e: Event, id: TransferId)
    requires HistoryConsistent(s)
    ensures var t := After(s, e);
            RowKept(s, t, e, id)
            || (e.Finish? && id in s.transfers && s.transfers[id].deleting && id in t.removed
                && t.removed[id] == s.transfers[id] && id !in s.history && id !in s.removed)
  {
    if e.Finish? {
      if e.job in s.jobs && s.jobs[e.job].Finishing? {
        FinishedRows(s, s.jobs[e.job].id, e, id);
        FinishedJob(s, e.job);
      }
    } else {
      OtherRowsStay(s, e, id);
    }
  }

  lemma OtherRowsStay(s: State, e: Event, id: TransferId)
    requires !e.Finish?
    ensures RowKept(s, After(s, e), e, id)
  {
    if OfRow(e) {
      match e
      case Create(_, _) =>
      case MarkDeleting(_) =>
      case DeleteAccount(_) =>
      case Purge(_) =>
    } else {
      RowsUntouched(s, e);
    }
  }

  /** A transfer keeps its creation time, and its owner too until that account is deleted, which leaves
      it without an owner and marked for removal. */
  lemma OwnerChangesOnlyWithAccount(events: seq<Event>, e: Event, id: TransferId)
    ensures var s, t := AfterAll(events), After(AfterAll(events), e);
            id in s.transfers && id in t.transfers ==>
              t.transfers[id].created == s.transfers[id].created
              && (t.transfers[id].owner == s.transfers[id].owner
                  || (s.transfers[id].owner.Some? && e == DeleteAccount(s.transfers[id].owner.value)
                      && t.transfers[id].owner == None && t.transfers[id].deleting))
  {
    var s := AfterAll(events);
    if OfRow(e) {
      match e
      case Create(_, _) =>
      case MarkDeleting(_) =>
      case DeleteAccount(_) =>
      case Purge(_) =>
    } else if !e.Finish? {
      RowsUntouched(s, e);
    }
  }

  lemma RowsUntouched(s: State, e: Event)
    requires !OfRow(e) && !e.Finish?
    ensures SameRows(s, After(s, e))
  {
    if !OfUpload(e) {
      JobsTouchNoRow(s, e);
    }
  }

  lemma JobsTouchNoRow(s: State, e: Event)
    requires !OfUpload(e) && !OfRow(e) && !e.Finish?
    ensures SameRows(s, AfterJob(s, e))
  {
    match e
    case StartJob(_, _) =>
    case PassStage(_, _) =>
    case StagesGone(_) =>
    case DeleteCopy(_, _) =>
    case CopiesGone(_) =>
    case StopJob(_) =>
  }

  /** The transaction that removes an owned transfer writes its archive row. */
  lemma FinishingArchives(events: seq<Event>, e: Event, id: TransferId)
    requires var s, t := AfterAll(events), After(AfterAll(events), e); id in s.transfers && id !in t.transfers
    ensures var s, t := AfterAll(events), After(AfterAll(events), e);
            && id !in s.history
            && t.history == match s.transfers[id].owner
                            case None => s.history
                            case Some(owner) => s.history[id := Entry(owner, s.transfers[id].created)]
  {
    RunsKeepInv(events);
    var s := AfterAll(events);
    RowsStay(s, e, id);
    if e.job in s.jobs && s.jobs[e.job].Finishing? {
      FinishedJob(s, e.job);
    }
  }

  /** The archive insert of the finishing transaction never meets its primary key. */
  lemma ArchiveNeverConflicts(events: seq<Event>, j: JobId)
    requires var s := AfterAll(events); j in s.jobs && s.jobs[j].Finishing? && AwaitingCleanup(s, s.jobs[j].id)
    ensures var s := AfterAll(events); var t := After(s, Finish(j)); var id := s.jobs[j].id;
            id !in s.history && id !in t.transfers && id in t.removed
  {
    RunsKeepInv(events);
  }

  // ---------------------------------------------------------------- what the single events bring about

  /** Due to go, or gone. */
  ghost predicate Settled(s: State, id: TransferId)
  {
    id in s.removed || AwaitingCleanup(s, id)
  }

  lemma SameIsOnlyLess(s: State, t: State, id: TransferId)
    requires SameStages(s, t) && SameCopies(s, t) && (Settled(s, id) ==> Settled(t, id))
    ensures OnlyLess(s, t, id)
  {
  }

  lemma FewerIsOnlyLess(s: State, t: State, id: TransferId)
    requires SameRows(s, t) && t.locations == s.locations && t.stored <= s.stored
    requires forall g <- t.stages | t.stages[g] == id :: g in s.stages && s.stages[g] == id
    ensures OnlyLess(s, t, id)
  {
  }

  lemma BegunOnlyLess(s: State, i: TransferId, g: StageId, id: TransferId)
    requires Settled(s, id) && s.transfers.Keys !! s.removed.Keys
    ensures OnlyLess(s, StageBegun(s, i, g), id)
  {
    assert Active(s, i) ==> i != id;
    FewerIsOnlyLess(s, StageBegun(s, i, g), id);
  }

  lemma StageGoneOnlyLess(s: State, g: StageId, id: TransferId)
    ensures OnlyLess(s, StageDropped(s, g), id) && OnlyLess(s, StageUnlinked(s, g), id)
  {
    FewerIsOnlyLess(s, StageDropped(s, g), id);
    FewerIsOnlyLess(s, StageUnlinked(s, g), id);
  }

  lemma OrphansOnlyLess(s: State, g: StageId, id: TransferId)
    ensures OnlyLess(s, BeginDied(s, g), id) && OnlyLess(s, Swept(s, g), id)
  {
    FewerIsOnlyLess(s, BeginDied(s, g), id);
    FewerIsOnlyLess(s, Swept(s, g), id);
  }

  lemma AttemptsOnlyLess(s: State, i: TransferId, c: Copy, id: TransferId)
    ensures OnlyLess(s, Attempted(s, i, c), id) && OnlyLess(s, AttemptDropped(s, c), id)
  {
    FewerIsOnlyLess(s, Attempted(s, i, c), id);
    FewerIsOnlyLess(s, AttemptDropped(s, c), id);
  }

  lemma ObjectsOnlyLess(s: State, c: Copy, id: TransferId)
    requires CopiesConsistent(s)
    ensures OnlyLess(s, CopyPut(s, c), id) && OnlyLess(s, AttemptRemoved(s, c), id)
  {
    if c in s.attempts {
      ObjectsMove(s, CopyPut(s, c), c);
      ObjectsMove(s, AttemptRemoved(s, c), c);
    }
  }

  lemma UploadsOnlyLess(s: State, e: Event, id: TransferId)
    requires OfUpload(e) && Settled(s, id) && HistoryConsistent(s) && CopiesConsistent(s)
    ensures OnlyLess(s, AfterUpload(s, e), id)
  {
    match e
    case BeginStage(i, g) => BegunOnlyLess(s, i, g, id);
    case BeginDies(g) => OrphansOnlyLess(s, g, id);
    case SweepFile(g) => OrphansOnlyLess(s, g, id);
    case Attempt(i, c) => AttemptsOnlyLess(s, i, c, id);
    case PutCopy(c) => ObjectsOnlyLess(s, c, id);
    case RecordCopy(c) => RecordedOnlyLess(s, c);
    case RemoveAttempt(c) => ObjectsOnlyLess(s, c, id);
    case DropAttempt(c) => AttemptsOnlyLess(s, 0, c, id);
    case UnlinkStage(g) => StageGoneOnlyLess(s, g, id);
    case DropStage(g) => StageGoneOnlyLess(s, g, id);
  }

  lemma RowsOnlyLess(s: State, e: Event, id: TransferId)
    requires OfRow(e) && Settled(s, id)
    ensures OnlyLess(s, AfterRow(s, e), id)
  {
    SettledByRows(s, e, id);
    SameIsOnlyLess(s, AfterRow(s, e), id);
  }

  lemma SettledByRows(s: State, e: Event, id: TransferId)
    requires OfRow(e) && Settled(s, id)
    ensures var t := AfterRow(s, e); Settled(t, id) && SameStages(s, t) && SameCopies(s, t)
  {
    match e
    case Create(_, _) =>
    case MarkDeleting(_) =>
    case DeleteAccount(_) =>
    case Purge(_) =>
  }

  lemma CopyDeletedOnlyLess(s: State, j: JobId, c: Copy, id: TransferId)
    ensures OnlyLess(s, CopyDeleted(s, j, c), id)
  {
    FewerIsOnlyLess(s, CopyDeleted(s, j, c), id);
  }

  lemma FinishedOnlyLess(s: State, done: TransferId, id: TransferId)
    ensures OnlyLess(s, Finished(s, done), id)
  {
  }

  lemma JobsOnlyLess(s: State, e: Event, id: TransferId)
    requires !OfUpload(e) && !OfRow(e) && Settled(s, id)
    ensures OnlyLess(s, AfterJob(s, e), id)
  {
    if e.DeleteCopy? {
      CopyDeletedOnlyLess(s, e.job, e.copy, id);
    } else if e.Finish? {
      if e.job in s.jobs && s.jobs[e.job].Finishing? {
        FinishedOnlyLess(s, s.jobs[e.job].id, id);
      }
    } else {
      JobsMoveAlone(s, e);
      SameIsOnlyLess(s, AfterJob(s, e), id);
    }
  }

  lemma JobsMoveAlone(s: State, e: Event)
    requires !OfUpload(e) && !OfRow(e) && !e.DeleteCopy? && !e.Finish?
    ensures AfterJob(s, e) == s.(jobs := AfterJob(s, e).jobs)
  {
  }

  lemma EventOnlyLess(s: State, e: Event, id: TransferId)
    requires Inv(s) && Settled(s, id)
    ensures OnlyLess(s, After(s, e), id)
  {
    if OfUpload(e) {
      UploadsOnlyLess(s, e, id);
    } else if OfRow(e) {
      RowsOnlyLess(s, e, id);
    } else {
      JobsOnlyLess(s, e, id);
    }
  }

  lemma AfterNext(events: seq<Event>, j: nat)
    requires j < |events|
    ensures AfterAll(events[..j + 1]) == After(AfterAll(events[..j]), events[j])
  {
    assert events[..j + 1][..j] == events[..j];
  }

  lemma LessJoins(s: State, t: State, u: State, id: TransferId)
    requires OnlyLess(s, t, id) && OnlyLess(t, u, id) && Settled(s, id)
    ensures OnlyLess(s, u, id) && Settled(u, id)
  {
  }

  lemma {:induction false} StaysSettled(events: seq<Event>, i: nat, j: nat, id: TransferId)
    requires i <= j <= |events| && Settled(AfterAll(events[..i]), id)
    ensures OnlyLess(AfterAll(events[..i]), AfterAll(events[..j]), id) && Settled(AfterAll(events[..j]), id)
    decreases j
  {
    if i < j {
      var t := AfterAll(events[..j - 1]);
      StaysSettled(events, i, j - 1, id);
      RunsKeepInv(events[..j - 1]);
      AfterNext(events, j - 1);
      EventOnlyLess(t, events[j - 1], id);
      LessJoins(AfterAll(events[..i]), t, After(t, events[j - 1]), id);
    }
  }

  /** A transfer that is deleted, by itself or with its owner's account, never comes back: from then on it
      is due to go or gone, it gets no new stage, and no further copy of it is recorded. */
  lemma DeletionIsFinal(events: seq<Event>, i: nat, j: nat, id: TransferId)
    requires i < j <= |events| && id in AfterAll(events[..i]).transfers
    requires events[i] == MarkDeleting(id)
             || (events[i].DeleteAccount? && AfterAll(events[..i]).transfers[id].owner == Some(events[i].owner))
    ensures var s, t := AfterAll(events[..i]), AfterAll(events[..j]);
            && (id in t.removed || (id in t.transfers && t.transfers[id].deleting))
            && (forall g <- t.stages | t.stages[g] == id :: g in s.stages && s.stages[g] == id)
            && (forall c <- t.stored | c in t.locations && t.locations[c] == id :: c in s.stored && c in s.locations && s.locations[c] == id)
  {
    AfterNext(events, i);
    RunsKeepInv(events[..i]);
    DeletionSettles(AfterAll(events[..i]), events[i], id);
    StaysSettled(events, i + 1, j, id);
  }

  lemma DeletionSettles(s: State, e: Event, id: TransferId)
    requires id in s.transfers && (e == MarkDeleting(id) || (e.DeleteAccount? && s.transfers[id].owner == Some(e.owner)))
    ensures var t := After(s, e);
            AwaitingCleanup(t, id) && t.stages == s.stages && t.locations == s.locations && t.stored == s.stored
  {
  }

  /** With an account all its transfers are marked and lose their owner, and its archive rows go; nothing
      of other accounts changes. */
  lemma AccountTakesItsOwn(s: State, owner: Account, id: TransferId)
    ensures var t := After(s, DeleteAccount(owner));
            && (id in t.transfers <==> id in s.transfers) && (id in t.history <==> id in s.history && s.history[id].owner != owner)
            && (id in s.transfers && s.transfers[id].owner == Some(owner) ==> t.transfers[id].deleting && t.transfers[id].owner.None?)
            && (id in s.transfers && s.transfers[id].owner != Some(owner) ==> t.transfers[id] == s.transfers[id])
            && (id in t.history ==> t.history[id] == s.history[id])
  {
  }

  lemma ReplayTwo(s: State, a: Event, b: Event)
    ensures Replay(s, [a, b]) == After(After(s, a), b)
  {
    assert [a, b][..1] == [a] && [a][..0] == [];
    assert Replay(s, [a]) == After(Replay(s, []), a);
  }

  lemma ReplayThree(s: State, a: Event, b: Event, c: Event)
    ensures Replay(s, [a, b, c]) == After(After(After(s, a), b), c)
  {
    assert [a, b, c][..2] == [a, b];
    ReplayTwo(s, a, b);
  }

  lemma CopyIsPut(s: State, id: TransferId, c: Copy)
    requires MayAttempt(s, id, c)
    ensures After(After(s, Attempt(id, c)), PutCopy(c)) == s.(attempts := s.attempts[c := id], stored := s.stored + {c})
  {
    assert After(s, Attempt(id, c)) == s.(attempts := s.attempts[c := id]);
  }

  /** A copy that is written and recorded belongs to its transfer. */
  lemma CopyIsRecorded(s: State, id: TransferId, c: Copy)
    requires MayAttempt(s, id, c)
    ensures Replay(s, [Attempt(id, c), PutCopy(c), RecordCopy(c)]) ==
              s.(locations := s.locations[c := id], stored := s.stored + {c})
  {
    ReplayThree(s, Attempt(id, c), PutCopy(c), RecordCopy(c));
    CopyIsPut(s, id, c);
    PutIsRecorded(s, id, c);
  }

  lemma PutIsRecorded(s: State, id: TransferId, c: Copy)
    requires MayAttempt(s, id, c)
    ensures CopyRecorded(s.(attempts := s.attempts[c := id], stored := s.stored + {c}), c) ==
              s.(locations := s.locations[c := id], stored := s.stored + {c})
  {
    assert s.attempts[c := id] - {c} == s.attempts;
  }

  /** One whose attempt is given up leaves nothing behind. */
  lemma AttemptIsUndone(s: State, id: TransferId, c: Copy)
    requires MayAttempt(s, id, c)
    ensures Replay(After(After(s, Attempt(id, c)), PutCopy(c)), [RemoveAttempt(c), DropAttempt(c)]) == s
  {
    var put := s.(attempts := s.attempts[c := id], stored := s.stored + {c});
    CopyIsPut(s, id, c);
    ReplayTwo(put, RemoveAttempt(c), DropAttempt(c));
    assert put.stored - {c} == s.stored && put.attempts - {c} == s.attempts;
  }

  /** A new transfer is active; a purged archive row is gone, and nothing else is. */
  lemma RowsComeAndGo(s: State, id: TransferId, t: Transfer)
    ensures id !in s.transfers && id !in s.removed && !t.deleting && (t.owner.Some? ==> t.owner.value !in s.closed) ==>
              After(s, Create(id, t)) == s.(transfers := s.transfers[id := t]) && Active(After(s, Create(id, t)), id)
    ensures After(s, Purge(id)).history == s.history - {id} && After(s, Purge(id)).transfers == s.transfers
  {
    assert id !in s.history ==> s.history - {id} == s.history;
  }

  /** A beginning that dies leaves an orphan, which the sweep takes. */
  lemma OrphanIsSwept(s: State, g: StageId)
    requires g !in s.stages && g !in s.stageFiles && g !in s.orphans
    ensures var died := After(s, BeginDies(g));
            g in died.stageFiles && g in died.orphans && After(died, SweepFile(g)) == s
  {
    var died := After(s, BeginDies(g));
    assert died.stageFiles - {g} == s.stageFiles && died.orphans - {g} == s.orphans;
  }

  /** A stage is begun with its file, and unlinking and dropping it take both away again. */
  lemma StageIsBegun(s: State, id: TransferId, g: StageId)
    requires MayBegin(s, id, g)
    ensures After(s, BeginStage(id, g)) == s.(stages := s.stages[g := id], stageFiles := s.stageFiles + {g})
    ensures Replay(After(s, BeginStage(id, g)), [UnlinkStage(g), DropStage(g)]) == s
  {
    var begun := After(s, BeginStage(id, g));
    ReplayTwo(begun, UnlinkStage(g), DropStage(g));
    assert begun.stageFiles - {g} == s.stageFiles && begun.stages - {g} == s.stages;
  }

  // ---------------------------------------------------------------- the job's own code

  function Replay(s: State, log: seq<Event>): State
  {
    if log == [] then s else After(Replay(s, log[..|log| - 1]), log[|log| - 1])
  }

  lemma {:induction false} ReplayKeepsInv(s: State, log: seq<Event>)
    requires Inv(s)
    ensures Inv(Replay(s, log))
  {
    if log != [] {
      ReplayKeepsInv(s, log[..|log| - 1]);
      EventKeepsInv(Replay(s, log[..|log| - 1]), log[|log| - 1]);
    }
  }

  class Cleaner {
    var state: State
    ghost var log: seq<Event>

    /** The state is what the logged events make of where the job began. */
    ghost predicate Follows(start: State)
      reads this
    {
      state == Replay(start, log)
    }

    method Do(e: Event, ghost start: State)
      requires Follows(start)
      modifies this
      ensures Follows(start) && state == After(old(state), e) && log == old(log) + [e]
    {
      assert (log + [e])[..|log|] == log;
      state := After(state, e);
      log := log + [e];
    }

    /** The transaction that removes one stage under its locks, cut short when operations run out. */
    method RemoveStage(g: StageId, limit: nat, ghost start: State) returns (ok: bool, left: nat)
      requires Follows(start)
      modifies this
      ensures Follows(start) && left <= limit
      ensures SameRows(old(state), state) && SameCopies(old(state), state) && state.jobs == old(state.jobs)
      ensures state.stages - {g} == old(state.stages) - {g} && state.stageFiles - {g} == old(state.stageFiles) - {g}
      ensures state.orphans == old(state.orphans)
      ensures ok ==> g !in state.stages
      ensures limit >= 2 ==> ok && left >= limit - 2
    {
      left := limit;
      if g in state.stages {
        if left == 0 { return false, left; }
        Do(UnlinkStage(g), start);
        left := left - 1;
        if left == 0 { return false, left; }
        Do(DropStage(g), start);
        left := left - 1;
      }
      ok := true;
    }

    ghost predicate Passing(j: JobId)
      reads this
    {
      j in state.jobs && state.jobs[j].Staging?
    }

    ghost predicate OnlyStagesFrom(s: State, j: JobId)
      requires Passing(j)
      reads this
    {
      j in s.jobs && s.jobs[j].Staging?
      && SameRows(s, state) && SameCopies(s, state)
      && state.jobs[j] == s.jobs[j].(todo := state.jobs[j].todo) && state.jobs[j].todo <= s.jobs[j].todo
    }

    /** ChunkStaging::removeTransfer, for a job that has the transfer's stages still to pass. Stages in
        `busy` are locked by someone else; `limit` file and row operations succeed before one fails. */
    method RemoveTransfer(j: JobId, busy: set<StageId>, limit: nat, ghost start: State) returns (ok: bool, left: nat)
      requires Follows(start) && Passing(j)
      modifies this
      ensures Follows(start) && Passing(j) && OnlyStagesFrom(old(state), j)
      ensures ok ==> state.jobs[j].todo == {}
      ensures var all := old(state.jobs[j].todo);
              busy * all == {} && limit >= 2 * |all| ==> ok && left >= limit - 2 * |all|
    {
      left := limit;
      ghost var all := state.jobs[j].todo;
      while state.jobs[j].todo != {}
        invariant Follows(start) && Passing(j) && OnlyStagesFrom(old(state), j)
        invariant busy * all == {} && limit >= 2 * |all| ==> left >= limit - 2 * (|all| - |state.jobs[j].todo|)
        decreases if Passing(j) then state.jobs[j].todo else {}
      {
        var g :| g in state.jobs[j].todo;
        ghost var before := state.jobs[j].todo;
        assert |before - {g}| == |before| - 1;
        if g in busy {
          return false, left;
        }
        var removed, rest := RemoveStage(g, left, start);
        left := rest;
        if !removed {
          Subset(before, all);
          return false, left;
        }
        Passes(state, j, g);
        Do(PassStage(j, g), start);
      }
      ok := true;
    }

    /** The loop over the stored copies. */
    method DeleteCopies(j: JobId, limit: nat, ghost start: State) returns (ok: bool)
      requires Follows(start) && j in state.jobs && state.jobs[j].Copies?
      modifies this
      ensures Follows(start) && j in state.jobs && state.jobs[j].Copies?
      ensures state == old(state).(stored := state.stored, jobs := state.jobs) && state.jobs[j].id == old(state.jobs[j].id)
      ensures ok <==> limit >= |old(state.jobs[j].todo)|
      ensures ok ==> state.jobs[j].todo == {}
    {
      var left := limit;
      ghost var all := |state.jobs[j].todo|;
      while state.jobs[j].todo != {}
        invariant Follows(start) && j in state.jobs && state.jobs[j].Copies?
        invariant state == old(state).(stored := state.stored, jobs := state.jobs) && state.jobs[j].id == old(state.jobs[j].id)
        invariant left >= 0 && limit - left == all - |state.jobs[j].todo|
        decreases state.jobs[j].todo
      {
        var c :| c in state.jobs[j].todo;
        assert |state.jobs[j].todo - {c}| == |state.jobs[j].todo| - 1;
        if left == 0 { return false; }
        Do(DeleteCopy(j, c), start);
        left := left - 1;
      }
      ok := true;
    }

    /** The part of handle() between loading an HTTP transfer and finishing. */
    method RemoveCiphertext(j: JobId, busy: set<StageId>, limit: nat, ghost start: State) returns (ok: bool)
      requires Follows(start) && Passing(j)
      modifies this
      ensures Follows(start) && j in state.jobs
      ensures state.transfers == old(state.transfers) && state.history == old(state.history)
      ensures ok ==> state.jobs[j] == Finishing(old(state.jobs[j].id))
      ensures var job := old(state.jobs[j]);
              busy * job.todo == {} && limit >= 2 * |job.todo| + |job.copies| ==> ok
    {
      ghost var job := state.jobs[j];
      var passed, left := RemoveTransfer(j, busy, limit, start);
      if !passed {
        return false;
      }
      Do(StagesGone(j), start);
      assert state.jobs[j] == Copies(job.id, job.copies);
      ok := DeleteCopies(j, left, start);
      if ok {
        Do(CopiesGone(j), start);
      }
    }

    /** handle() up to the call of finish(). */
    method Clean(j: JobId, id: TransferId, busy: set<StageId>, limit: nat, ghost start: State) returns (ok: bool)
      requires state == start && log == [] && AwaitingCleanup(start, id) && j !in state.jobs
      modifies this
      ensures Follows(start) && j in state.jobs
      ensures state.transfers == start.transfers && state.history == start.history
      ensures ok ==> state.jobs[j] == Finishing(id)
      ensures busy * StagesOf(start, id) == {} && limit >= 2 * |StagesOf(start, id)| + |CopiesOf(start, id)| ==> ok
    {
      Do(StartJob(j, id), start);
      assert state.jobs[j] == Loaded(start, id) && state.transfers == start.transfers;
      ok := true;
      if state.transfers[id].driver == Http {
        ok := RemoveCiphertext(j, busy, limit, start);
      }
    }

    /** DeleteTransfer::handle. Whatever happens, the run is one of the protocol, a failed run leaves
        the row for a retry, a successful one removes the transfer with all its ciphertext and archives it
        under its owner, and a run that meets neither a busy stage nor a failing operation succeeds. */
    method Handle(j: JobId, id: TransferId, busy: set<StageId>, limit: nat) returns (ok: bool)
      requires Inv(state) && j !in state.jobs
      modifies this
      ensures Follows(old(state)) && j !in state.jobs
      ensures ok ==> !AwaitingCleanup(state, id)
      ensures ok && AwaitingCleanup(old(state), id) ==>
                id in state.removed && NoCiphertext(state, id) && state.transfers == old(state.transfers) - {id}
                && state.history == match old(state.transfers)[id].owner
                                    case None => old(state.history)
                                    case Some(owner) => old(state.history)[id := Entry(owner, old(state.transfers)[id].created)]
      ensures !ok ==> state.transfers == old(state.transfers) && state.history == old(state.history)
      ensures busy * StagesOf(old(state), id) == {} && limit >= 2 * |StagesOf(old(state), id)| + |CopiesOf(old(state), id)| ==> ok
    {
      log := [];
      ghost var start := state;
      if !AwaitingCleanup(state, id) {
        return true;
      }
      ok := Clean(j, id, busy, limit, start);
      if ok {
        FinishingSucceeds(start, log, j);
        Do(Finish(j), start);
      } else {
        Do(StopJob(j), start);
      }
    }
  }

  lemma Passes(s: State, j: JobId, g: StageId)
    requires j in s.jobs && s.jobs[j].Staging? && g !in s.stages
    ensures var t := After(s, PassStage(j, g));
            SameRows(s, t) && SameCopies(s, t) && SameStages(s, t) && j in t.jobs && t.jobs[j] == s.jobs[j].(todo := s.jobs[j].todo - {g})
  {
    assert After(s, PassStage(j, g)) == AfterJob(s, PassStage(j, g));
  }

  lemma FinishingSucceeds(start: State, log: seq<Event>, j: JobId)
    requires Inv(start)
    requires var s := Replay(start, log); j in s.jobs && s.jobs[j].Finishing?
    ensures var s, t := Replay(start, log), After(Replay(start, log), Finish(j)); var id := s.jobs[j].id;
            && !AwaitingCleanup(t, id) && j !in t.jobs
            && (AwaitingCleanup(s, id) ==>
                  id in t.removed && NoCiphertext(t, id) && t.transfers == s.transfers - {id}
                  && t.history == Archived(s, id, s.transfers[id]))
  {
    ReplayKeepsInv(start, log);
    var s := Replay(start, log);
    assert JobConsistent(s, s.jobs[j]);
    JobFinishes(s, j);
  }

  lemma JobFinishes(s: State, j: JobId)
    requires HistoryConsistent(s) && j in s.jobs && s.jobs[j].Finishing? && NoCiphertext(s, s.jobs[j].id)
    ensures var t, id := After(s, Finish(j)), s.jobs[j].id;
            && !AwaitingCleanup(t, id) && j !in t.jobs
            && (AwaitingCleanup(s, id) ==>
                  id in t.removed && NoCiphertext(t, id) && t.transfers == s.transfers - {id}
                  && t.history == Archived(s, id, s.transfers[id]))
  {
    var t, id := After(s, Finish(j)), s.jobs[j].id;
    assert t == AfterJob(s, Finish(j));
    assert t == StopJobs(Finished(s, id), j);
  }

  lemma Subset<T>(a: set<T>, b: set<T>)
    requires a <= b
    ensures |a| <= |b|
  {
    if a != {} {
      var x :| x in a;
      Subset(a - {x}, b - {x});
    }
  }
}
