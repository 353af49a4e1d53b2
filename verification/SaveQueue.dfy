// The queue that stores a visitor's appearance (appearance.js), together with the server that answers
// it (AppearanceController and Appearance::save).
module SaveQueue {
  import opened Options

  type Account = nat

  /** A mode and preset that both sides accept as they are. */
  type Preference = nat

  datatype Status = Idle | Saving | Done | Failed

  datatype Job = Job(preference: Preference, adopt: bool, account: Account, revision: nat, epoch: nat)

  datatype Reply = Echo(account: Account, preference: Preference) | Failure

  /** What the server renders into a page for its visitor. */
  datatype Page = Page(account: Option<Account>, preference: Preference, needsAdoption: bool)

  /** A client after a step, and the request it sent in that step. */
  datatype Out = Out(client: Client, sent: Option<Job>)

  datatype Client = Client(preference: Preference, status: Status, revision: nat, epoch: nat, pending: Option<Job>,
                           saving: bool, retryAdopt: bool, account: Option<Account>, needsAdoption: bool, guest: Preference)
  {
    function Drain(): Out
    {
      if saving || pending.None? then Out(this, None) else Out(this.(pending := None, saving := true), pending)
    }

    function Enqueue(adopt: bool): Out
      requires account.Some?
    {
      var job := Job(preference, adopt, account.value, revision, epoch);
      this.(retryAdopt := adopt, pending := Some(job), status := Saving).Drain()
    }

    function Choose(p: Preference): Out
    {
      var c := this.(preference := p, revision := revision + 1);
      if account.Some? then c.Enqueue(false) else Out(c.(status := Idle, guest := p), None)
    }

    function Retry(): Out
    {
      if account.Some? then Enqueue(retryAdopt) else Out(this, None)
    }

    /** hydrate, up to its last line. */
    function Rendered(next: Page): Client
    {
      var c := if account == next.account then this
               else this.(epoch := epoch + 1, revision := revision + 1, pending := None, status := Idle);
      var shown := if account == next.account && (status == Saving || status == Failed) then preference
                   else if next.account.Some? && !next.needsAdoption then next.preference else guest;
      c.(account := next.account, needsAdoption := next.needsAdoption, preference := shown)
    }

    function Hydrate(next: Page): Out
    {
      Rendered(next).Adopt()
    }

    /** What the page does when it is ready, and hydrate at its end. */
    function Adopt(): Out
    {
      if account.Some? && needsAdoption && pending.None? && status != Saving then Enqueue(true) else Out(this, None)
    }

    function Guest(p: Preference): Client
    {
      if account.None? then this.(guest := p, preference := p) else this.(guest := p)
    }

    /** The part of drain after the answer, without its last line. */
    function Received(job: Job, reply: Reply): Client
    {
      match reply
      case Echo(a, p) =>
        if epoch != job.epoch || account != Some(a) then this
        else if revision == job.revision then this.(needsAdoption := false, preference := p, status := Done)
        else this.(needsAdoption := false)
      case Failure =>
        if epoch == job.epoch && revision == job.revision then this.(status := Failed) else this
    }

    function Settle(job: Job, reply: Reply): Out
    {
      Received(job, reply).(saving := false).Drain()
    }
  }

  // ---------------------------------------------------------------- the imperative form

  class Queue {
    var preference: Preference
    var status: Status
    var revision: nat
    var epoch: nat
    var pending: Option<Job>
    var saving: bool
    var retryAdopt: bool
    var account: Option<Account>
    var needsAdoption: bool
    var guest: Preference

    function View(): Client
      reads this
    {
      Client(preference, status, revision, epoch, pending, saving, retryAdopt, account, needsAdoption, guest)
    }

    method Drain() returns (sent: Option<Job>)
      modifies this
      ensures Out(View(), sent) == old(View()).Drain()
    {
      if saving || pending.None? {
        return None;
      }
      sent := pending;
      pending := None;
      saving := true;
    }

    method Enqueue(adopt: bool) returns (sent: Option<Job>)
      requires account.Some?
      modifies this
      ensures Out(View(), sent) == old(View()).Enqueue(adopt)
    {
      retryAdopt := adopt;
      pending := Some(Job(preference, adopt, account.value, revision, epoch));
      status := Saving;
      sent := Drain();
    }

    method Choose(p: Preference) returns (sent: Option<Job>)
      modifies this
      ensures Out(View(), sent) == old(View()).Choose(p)
    {
      preference := p;
      revision := revision + 1;
      if account.Some? {
        sent := Enqueue(false);
      } else {
        sent, status, guest := None, Idle, preference;
      }
    }

    method Retry() returns (sent: Option<Job>)
      modifies this
      ensures Out(View(), sent) == old(View()).Retry()
    {
      sent := None;
      if account.Some? {
        sent := Enqueue(retryAdopt);
      }
    }

    method Hydrate(next: Page) returns (sent: Option<Job>)
      modifies this
      ensures Out(View(), sent) == old(View()).Hydrate(next)
    {
      var changedAccount := account != next.account;
      if changedAccount {
        epoch, revision, pending, status := epoch + 1, revision + 1, None, Idle;
      }
      account, needsAdoption := next.account, next.needsAdoption;
      if changedAccount || (status != Saving && status != Failed) {
        preference := if next.account.Some? && !next.needsAdoption then next.preference else guest;
      }
      sent := None;
      if next.account.Some? && next.needsAdoption && pending.None? && status != Saving {
        sent := Enqueue(true);
      }
    }

    method Ready() returns (sent: Option<Job>)
      modifies this
      ensures Out(View(), sent) == old(View()).Adopt()
    {
      sent := None;
      if account.Some? && needsAdoption && status != Saving && pending.None? {
        sent := Enqueue(true);
      }
    }

    method Settle(job: Job, reply: Reply) returns (sent: Option<Job>)
      modifies this
      ensures Out(View(), sent) == old(View()).Settle(job, reply)
    {
      match reply {
        case Echo(a, p) =>
          if epoch == job.epoch && account == Some(a) {
            needsAdoption := false;
            if revision == job.revision {
              preference, status := p, Done;
            }
          }
        case Failure =>
          if epoch == job.epoch && revision == job.revision {
            status := Failed;
          }
      }
      saving := false;
      sent := Drain();
    }
  }

  // ---------------------------------------------------------------- the page, the wire and the server

  /** A request under way; `answer` is set once its outcome, as the page will see it, is settled. */
  datatype Flight = Flight(job: Job, answer: Option<Reply>)

  /** `lost` holds requests whose page no longer waits for them but which may still reach the server. */
  datatype State = State(client: Client, wire: seq<Flight>, lost: seq<Job>, server: map<Account, Preference>,
                         actor: Option<Account>)
  {
    function With(out: Out): State
    {
      this.(client := out.client, wire := wire + if out.sent.Some? then [Flight(out.sent.value, None)] else [])
    }

    /** The page stops waiting for the newest request, as abort or a broken connection does. */
    function GivenUp(): State
    {
      if wire == [] then this
      else
        var f := wire[|wire| - 1];
        if f.answer.Some? then this
        else this.(wire := wire[..|wire| - 1] + [Flight(f.job, Some(Failure))], lost := lost + [f.job])
    }

    /** AppearanceController: only for the signed-in account, and adopting keeps what is stored. */
    function Stored(job: Job): map<Account, Preference>
    {
      if actor != Some(job.account) || (job.adopt && job.account in server) then server
      else server[job.account := job.preference]
    }

    function Answer(job: Job): Reply
    {
      if actor != Some(job.account) then Failure else Echo(job.account, Stored(job)[job.account])
    }
  }

  datatype Event =
    | SignIn(actor: Option<Account>)
    | Choose(preference: Preference)
    | Retry
    | Ready
    | Hydrate(page: Page)
    | GuestChanged(preference: Preference)
    | Handled
    | Dropped
    | Delivered
    | Late(i: nat)

  function After(s: State, e: Event): State
  {
    match e
    case SignIn(a) => s.(actor := a)
    case Choose(p) => s.With(s.client.Choose(p))
    case Retry => s.With(s.client.Retry())
    case Ready => s.With(s.client.Adopt())
    case Hydrate(page) =>
      var t := if page.account != s.client.account then s.GivenUp() else s;
      t.With(s.client.Hydrate(page))
    case GuestChanged(p) => s.(client := s.client.Guest(p))
    case Handled => AfterHandled(s)
    case Dropped => AfterDropped(s)
    case Delivered => AfterDelivered(s)
    case Late(i) => AfterLate(s, i)
  }

  function AfterHandled(s: State): State
  {
    if s.wire == [] || s.wire[0].answer.Some? then s
    else
      var job := s.wire[0].job;
      s.(server := s.Stored(job), wire := [Flight(job, Some(s.Answer(job)))] + s.wire[1..])
  }

  /** The connection breaks before the answer is read, with or without the server having acted. */
  function AfterDropped(s: State): State
  {
    if s.wire == [] then s
    else if s.wire[0].answer.Some? then s.(wire := [Flight(s.wire[0].job, Some(Failure))] + s.wire[1..])
    else s.GivenUp()
  }

  function AfterDelivered(s: State): State
  {
    if s.wire == [] || s.wire[0].answer.None? then s
    else s.(wire := s.wire[1..]).With(s.client.Settle(s.wire[0].job, s.wire[0].answer.value))
  }

  function AfterLate(s: State, i: nat): State
  {
    if i >= |s.lost| then s
    else s.(server := s.Stored(s.lost[i]), lost := s.lost[..i] + s.lost[i + 1..])
  }

  function AfterAll(s: State, events: seq<Event>): State
  {
    if events == [] then s else After(AfterAll(s, events[..|events| - 1]), events[|events| - 1])
  }

  /** A page that shows what the server holds. */
  predicate Fresh(page: Page, server: map<Account, Preference>)
  {
    page.account.Some? ==>
      (page.needsAdoption <==> page.account.value !in server)
      && (!page.needsAdoption ==> page.preference == server[page.account.value])
  }

  function Opened(page: Page, guest: Preference, server: map<Account, Preference>, actor: Option<Account>): State
  {
    var shown := if page.account.Some? && !page.needsAdoption then page.preference else guest;
    State(Client(shown, Idle, 0, 0, None, false, false, page.account, page.needsAdoption, guest), [], [], server, actor)
  }

  predicate Start(s: State)
  {
    s == Opened(Page(s.client.account, s.client.preference, s.client.needsAdoption), s.client.guest, s.server, s.actor)
  }

  // ---------------------------------------------------------------- what every run keeps

  ghost predicate JobInv(c: Client, job: Job)
  {
    job.epoch <= c.epoch && job.revision <= c.revision && (job.epoch == c.epoch ==> c.account == Some(job.account))
  }

  ghost predicate FlightInv(c: Client, f: Flight)
  {
    JobInv(c, f.job)
    && (f.job.epoch < c.epoch ==> f.answer.Some?)
    && (f.answer.Some? && f.answer.value.Echo? ==> f.answer.value.account == f.job.account)
  }

  ghost predicate Inv(s: State)
  {
    |s.wire| == (if s.client.saving then 1 else 0)
    && (s.wire != [] ==> FlightInv(s.client, s.wire[0]))
    && (s.client.pending.Some? ==> s.client.saving && JobInv(s.client, s.client.pending.value)
                                   && s.client.pending.value.epoch == s.client.epoch)
  }

  lemma EventKeepsInv(s: State, e: Event)
    requires Inv(s)
    ensures Inv(After(s, e))
  {
    match e
    case Hydrate(page) => HydrateKeepsInv(s, page);
    case Handled =>
    case Dropped =>
    case Delivered =>
    case Late(_) =>
    case SignIn(_) =>
    case Choose(_) =>
    case Retry =>
    case Ready =>
    case GuestChanged(_) =>
  }

  lemma HydrateKeepsInv(s: State, page: Page)
    requires Inv(s)
    ensures Inv(After(s, Hydrate(page)))
  {
    var c := s.client.Rendered(page);
    assert c.saving == s.client.saving;
    if page.account != s.client.account {
      var t := s.GivenUp();
      assert s.wire != [] ==> t.wire[0].job == s.wire[0].job && t.wire[0].answer.Some?;
    }
  }

  lemma {:induction false} RunsKeepInv(s: State, events: seq<Event>)
    requires Start(s)
    ensures Inv(AfterAll(s, events))
  {
    if events != [] {
      RunsKeepInv(s, events[..|events| - 1]);
      EventKeepsInv(AfterAll(s, events[..|events| - 1]), events[|events| - 1]);
    }
  }

  /** At most one request is under way, and only while the page counts itself as saving. */
  lemma OneRequestAtATime(s: State, events: seq<Event>)
    requires Start(s)
    ensures |AfterAll(s, events).wire| == if AfterAll(s, events).client.saving then 1 else 0
  {
    RunsKeepInv(s, events);
  }

  // ---------------------------------------------------------------- replies and newer choices

  /** A choice, or a page for another account. */
  predicate Supersedes(s: State, e: Event)
  {
    e.Choose? || (e.Hydrate? && e.page.account != s.client.account)
  }

  predicate Holds(s: State, job: Job)
  {
    s.client.pending == Some(job) || exists i | 0 <= i < |s.wire| :: s.wire[i].job == job
  }

  lemma RevisionStep(s: State, e: Event)
    ensures After(s, e).client.revision == s.client.revision + if Supersedes(s, e) then 1 else 0
  {
    match e
    case SignIn(_) =>
    case Choose(_) =>
    case Retry =>
    case Ready =>
    case Hydrate(_) =>
    case GuestChanged(_) =>
    case Handled =>
    case Dropped =>
    case Delivered =>
    case Late(_) =>
  }

  lemma {:induction false} RevisionCounts(s: State, events: seq<Event>, i: nat, j: nat)
    requires i <= j < |events|
    ensures AfterAll(s, events[..i]).client.revision + (if Supersedes(AfterAll(s, events[..j]), events[j]) then 1 else 0)
         <= AfterAll(s, events).client.revision
  {
    var before := events[..|events| - 1];
    RevisionStep(AfterAll(s, before), events[|events| - 1]);
    if j < |before| {
      assert before[..i] == events[..i] && before[..j] == events[..j];
      RevisionCounts(s, before, i, j);
    } else if i < |before| {
      assert before[..i] == events[..i] && before[..i] + before[i..] == before;
      RevisionGrows(s, before[..i], before[i..]);
    } else {
      assert events[..i] == before;
    }
  }

  lemma {:induction false} RevisionGrows(s: State, first: seq<Event>, more: seq<Event>)
    ensures AfterAll(s, first).client.revision <= AfterAll(s, first + more).client.revision
  {
    if more == [] {
      assert first + more == first;
    } else {
      var all := first + more;
      assert all[..|all| - 1] == first + more[..|more| - 1];
      RevisionGrows(s, first, more[..|more| - 1]);
      RevisionStep(AfterAll(s, all[..|all| - 1]), all[|all| - 1]);
    }
  }

  /** An answer changes what is shown only if, since the page first held that request, there was no
      newer choice and no change of account. */
  lemma RepliesNeverUndoChoices(s: State, events: seq<Event>, i: nat, j: nat)
    requires Start(s) && i <= j < |events|
    requires var t := AfterAll(s, events);
             t.wire != [] && After(t, Delivered).client.preference != t.client.preference
             && Holds(AfterAll(s, events[..i]), t.wire[0].job)
    ensures !Supersedes(AfterAll(s, events[..j]), events[j])
  {
    var t := AfterAll(s, events);
    RunsKeepInv(s, events[..i]);
    RevisionCounts(s, events, i, j);
  }

  // ---------------------------------------------------------------- what is shown and what is stored

  /** Where the page claims to be in step with the account, the server holds what it shows. */
  ghost predicate Agrees(s: State)
  {
    var c := s.client;
    c.account.Some? && (c.status == Done || (c.status == Idle && !c.needsAdoption)) ==>
      c.account.value in s.server && s.server[c.account.value] == c.preference
  }

  ghost predicate CurrentFlight(s: State, f: Flight)
  {
    var c, job := s.client, f.job;
    c.status != Idle
    && (job.revision < c.revision ==> c.pending.Some? && c.status != Done)
    && (job.revision == c.revision ==>
          (job.adopt ==> c.retryAdopt) && (job.preference == c.preference || (job.adopt && job.account in s.server)))
    && (f.answer.Some? && f.answer.value.Echo? ==>
          job.account in s.server && s.server[job.account] == f.answer.value.preference
          && (job.adopt || f.answer.value.preference == job.preference))
  }

  ghost predicate InStep(s: State)
  {
    var c := s.client;
    Inv(s) && Agrees(s)
    && (s.wire != [] && s.wire[0].job.epoch == c.epoch ==> CurrentFlight(s, s.wire[0]))
    && (c.pending.Some? ==> c.status == Saving && c.pending.value.revision == c.revision
                            && c.pending.value.preference == c.preference && c.pending.value.adopt == c.retryAdopt)
    && (c.status == Saving ==>
          c.pending.Some? || (s.wire != [] && s.wire[0].job.epoch == c.epoch && s.wire[0].job.revision == c.revision))
  }

  /** The two things the page cannot control: a page rendered before the newest save must not arrive
      after it, and a request given up for lost must not change the store afterwards. */
  predicate Orderly(s: State, e: Event)
  {
    match e
    case Hydrate(page) =>
      (page.account == s.client.account && (s.client.status == Saving || s.client.status == Failed))
      || Fresh(page, s.server)
    case Late(i) => AfterLate(s, i).server == s.server
    case _ => true
  }

  lemma HydrateKeepsStep(s: State, page: Page)
    requires InStep(s) && Orderly(s, Hydrate(page))
    ensures InStep(After(s, Hydrate(page)))
  {
    HydrateKeepsInv(s, page);
  }

  lemma HandledKeepsStep(s: State)
    requires InStep(s)
    ensures InStep(After(s, Handled))
  {
    EventKeepsInv(s, Handled);
  }

  lemma DeliveredKeepsStep(s: State)
    requires InStep(s)
    ensures InStep(After(s, Delivered))
  {
    EventKeepsInv(s, Delivered);
  }

  lemma OthersKeepStep(s: State, e: Event)
    requires InStep(s) && Orderly(s, e) && !e.Hydrate? && !e.Handled? && !e.Delivered?
    ensures InStep(After(s, e))
  {
    EventKeepsInv(s, e);
    match e
    case SignIn(_) =>
    case Choose(_) =>
    case Retry =>
    case Ready =>
    case GuestChanged(_) =>
    case Dropped =>
    case Late(_) =>
  }

  lemma EventKeepsStep(s: State, e: Event)
    requires InStep(s) && Orderly(s, e)
    ensures InStep(After(s, e))
  {
    match e
    case Hydrate(page) => HydrateKeepsStep(s, page);
    case Handled => HandledKeepsStep(s);
    case Delivered => DeliveredKeepsStep(s);
    case _ => OthersKeepStep(s, e);
  }

  ghost predicate OrderlyRun(s: State, events: seq<Event>)
  {
    events != [] ==>
      var before := events[..|events| - 1];
      OrderlyRun(s, before) && Orderly(AfterAll(s, before), events[|events| - 1])
  }

  lemma {:induction false} RunsKeepStep(s: State, events: seq<Event>)
    requires Start(s) && OrderlyRun(s, events)
    requires Fresh(Page(s.client.account, s.client.preference, s.client.needsAdoption), s.server)
    ensures InStep(AfterAll(s, events))
  {
    if events != [] {
      RunsKeepStep(s, events[..|events| - 1]);
      EventKeepsStep(AfterAll(s, events[..|events| - 1]), events[|events| - 1]);
    }
  }

  /** When the queue has gone quiet the server holds what is shown, unless the page reports a failure
      or has yet to adopt the guest's choice; and it never says "saving" once it is quiet. */
  lemma QuietMeansStored(s: State, events: seq<Event>)
    requires Start(s) && OrderlyRun(s, events)
    requires Fresh(Page(s.client.account, s.client.preference, s.client.needsAdoption), s.server)
    ensures var t := AfterAll(s, events);
            t.client.account.Some? && !t.client.saving && t.client.pending.None? ==>
              t.client.status == Failed || (t.client.status == Idle && t.client.needsAdoption)
              || (t.client.account.value in t.server && t.server[t.client.account.value] == t.client.preference)
  {
    RunsKeepStep(s, events);
  }

  // ---------------------------------------------------------------- what is asked for is done

  predicate Signed(s: State, a: Account)
  {
    s.client.account == Some(a) && s.actor == Some(a)
  }

  /** The request that stores what is shown, on its way or next in line. */
  predicate Requested(s: State, adopt: bool)
  {
    var c := s.client;
    c.account.Some? && c.status == Saving && c.retryAdopt == adopt
    && var job := Job(c.preference, adopt, c.account.value, c.revision, c.epoch);
       c.pending == Some(job) || (s.wire != [] && s.wire[|s.wire| - 1] == Flight(job, None))
  }

  /** A choice is shown at once; for an account it is requested, for a guest remembered. */
  lemma ChoiceIsRequested(s: State, p: Preference)
    ensures var t := After(s, Choose(p));
            && t.client.preference == p && t.server == s.server
            && (s.client.account.Some? ==> Requested(t, false) && t.client.guest == s.client.guest)
            && (s.client.account.None? ==> t.client.guest == p && t.client.status == Idle && t.wire == s.wire)
  {
  }

  /** A retry requests what is shown, for adoption if that is what had failed. */
  lemma RetryIsRequested(s: State)
    ensures var t := After(s, Retry);
            && t.client.preference == s.client.preference
            && (s.client.account.Some? ==> Requested(t, s.client.retryAdopt))
            && (s.client.account.None? ==> t == s)
  {
  }

  /** A page for an account that has nothing stored requests to adopt the guest's choice, at once or,
      when it is the first page, as soon as it is ready, unless a choice is being saved already. */
  lemma AdoptionIsRequested(s: State, page: Page)
    requires page.account.Some? && page.needsAdoption
    ensures s.client.account != page.account || (s.client.pending.None? && s.client.status != Saving) ==>
              var t := After(s, Hydrate(page));
              Requested(t, true)
              && t.client.preference == if s.client.account != page.account || s.client.status != Failed then s.client.guest
                                        else s.client.preference
    ensures s.client.account.Some? && s.client.needsAdoption && s.client.pending.None? && s.client.status != Saving ==>
              Requested(After(s, Ready), true) && After(s, Ready).client.preference == s.client.preference
  {
  }

  /** Another page's guest choice is remembered, and shown to a guest. */
  lemma GuestChangeIsTaken(s: State, p: Preference)
    ensures var t := After(s, GuestChanged(p));
            t.client.guest == p && t.client.preference == (if s.client.account.None? then p else s.client.preference)
            && t == s.(client := t.client)
  {
  }

  lemma RequestIsStored(s: State, a: Account, adopt: bool)
    requires Inv(s) && Signed(s, a) && Requested(s, adopt) && s.client.pending.None? && (adopt ==> a !in s.server)
    ensures var t := After(After(s, Handled), Delivered);
            && t.server == s.server[a := s.client.preference] && t.client.preference == s.client.preference
            && t.client.status == Done && !t.client.needsAdoption && t.wire == [] && t.client.pending.None?
  {
    var job := Job(s.client.preference, adopt, a, s.client.revision, s.client.epoch);
    assert s.wire == [Flight(job, None)];
    var handled := After(s, Handled);
    assert handled.wire == [Flight(job, Some(Echo(a, s.client.preference)))];
  }

  lemma RequestIsSent(s: State, a: Account)
    requires Inv(s) && Signed(s, a) && Requested(s, false) && s.client.pending.Some? && s.wire != []
    requires s.wire[0].job.epoch == s.client.epoch ==> s.wire[0].job.revision < s.client.revision
    ensures var t := After(After(s, Handled), Delivered);
            && Inv(t) && Signed(t, a) && Requested(t, false) && t.client.pending.None? && t.client.preference == s.client.preference
  {
    EventKeepsInv(s, Handled);
    var handled := After(s, Handled);
    EventKeepsInv(handled, Delivered);
    assert handled.client == s.client && |handled.wire| == 1 && handled.wire[0].job == s.wire[0].job;
    assert handled.wire[0].answer.Some?;
    assert handled.wire[1..] == [];
  }

  /** Whatever request is under way when an account makes a choice, once the server has answered that
      one and the next, the choice is stored and shown as saved. */
  lemma ChoiceIsStored(s: State, a: Account, p: Preference)
    requires Inv(s) && Signed(s, a)
    ensures var chosen := After(s, Choose(p));
            var sent := if s.wire == [] then chosen else After(After(chosen, Handled), Delivered);
            var t := After(After(sent, Handled), Delivered);
            a in t.server && t.server[a] == p && t.client.preference == p && t.client.status == Done && t.wire == []
  {
    var chosen := After(s, Choose(p));
    EventKeepsInv(s, Choose(p));
    ChoiceIsRequested(s, p);
    if s.wire == [] {
      RequestIsStored(chosen, a, false);
    } else {
      assert chosen.wire == s.wire;
      RequestIsSent(chosen, a);
      RequestIsStored(After(After(chosen, Handled), Delivered), a, false);
    }
  }

  /** And a guest who signs in to an account with nothing stored finds the guest's choice there. */
  lemma GuestChoiceIsAdopted(s: State, a: Account, page: Page)
    requires Inv(s) && s.wire == [] && s.client.account.None? && s.actor == Some(a) && a !in s.server
    requires page.account == Some(a) && page.needsAdoption
    ensures var t := After(After(After(s, Hydrate(page)), Handled), Delivered);
            && t.server == s.server[a := s.client.guest] && t.client.preference == s.client.guest
            && t.client.status == Done && !t.client.needsAdoption
  {
    EventKeepsInv(s, Hydrate(page));
    AdoptionIsRequested(s, page);
    RequestIsStored(After(s, Hydrate(page)), a, true);
  }

  /** A page that is out of date is shown over a newer save: exactly the condition for that. */
  lemma StalePageExactly(s: State, page: Page)
    requires InStep(s)
    ensures Agrees(After(s, Hydrate(page))) <==>
              page.account.None? || page.needsAdoption
              || (page.account == s.client.account && (s.client.status == Saving || s.client.status == Failed))
              || (page.account.value in s.server && s.server[page.account.value] == page.preference)
  {
  }

  /** Such a page exists: one rendered before a save and applied after it. */
  lemma StalePageHidesSave(stale: Page, start: State)
    requires stale == Page(Some(1), 5, false) && start == Opened(stale, 0, map[1 := 5], Some(1))
    ensures var s := After(After(After(After(start, Choose(6)), Handled), Delivered), Hydrate(stale));
            s.client.status == Done && !s.client.saving && s.client.preference == 5 && s.server == map[1 := 6]
  {
    var chosen := After(start, Choose(6));
    assert chosen.wire == [Flight(Job(6, false, 1, 1, 0), None)];
    var handled := After(chosen, Handled);
    assert handled.server == map[1 := 6] && handled.wire == [Flight(Job(6, false, 1, 1, 0), Some(Echo(1, 6)))];
    var delivered := After(handled, Delivered);
    assert delivered.client.status == Done && delivered.client.preference == 6 && delivered.wire == [];
  }

  /** A request that arrives after the page gave it up: exactly when it leaves the page out of step. */
  lemma LateRequestExactly(s: State, i: nat)
    requires InStep(s) && i < |s.lost|
    ensures var c, job := s.client, s.lost[i];
            !Agrees(After(s, Late(i))) <==>
              c.account == Some(job.account) && (c.status == Done || (c.status == Idle && !c.needsAdoption))
              && s.actor == Some(job.account) && !job.adopt && job.preference != c.preference
  {
  }

  lemma FirstSaveIsSent(start: State) returns (chosen: State)
    requires start == Opened(Page(Some(1), 5, false), 0, map[1 := 5], Some(1))
    ensures chosen == After(start, Choose(6)) && chosen.wire == [Flight(Job(6, false, 1, 1, 0), None)]
    ensures chosen.client == Client(6, Saving, 1, 0, None, true, false, Some(1), false, 0)
    ensures chosen.lost == [] && chosen.server == map[1 := 5] && chosen.actor == Some(1)
  {
    chosen := After(start, Choose(6));
  }

  lemma FirstSaveBreaks(start: State) returns (broken: State)
    requires start == Opened(Page(Some(1), 5, false), 0, map[1 := 5], Some(1))
    ensures broken == After(After(After(start, Choose(6)), Dropped), Delivered)
    ensures broken.wire == [] && !broken.client.saving && broken.client.pending.None? && broken.client.account == Some(1)
    ensures broken.client.revision == 1 && broken.client.epoch == 0 && broken.actor == Some(1) && broken.server == map[1 := 5]
    ensures broken.client.status == Failed && broken.lost == [Job(6, false, 1, 1, 0)]
  {
    var chosen := FirstSaveIsSent(start);
    var job := Job(6, false, 1, 1, 0);
    var dropped := chosen.(wire := [Flight(job, Some(Failure))], lost := [job]);
    assert After(chosen, Dropped) == dropped;
    assert dropped.wire[1..] == [];
    broken := After(dropped, Delivered);
  }

  lemma SecondSaveSucceeds(broken: State) returns (saved: State)
    requires broken.wire == [] && !broken.client.saving && broken.client.pending.None? && broken.client.account == Some(1)
    requires broken.client.revision == 1 && broken.client.epoch == 0 && broken.actor == Some(1) && broken.server == map[1 := 5]
    ensures saved == After(After(After(broken, Choose(7)), Handled), Delivered)
    ensures saved.client.status == Done && !saved.client.saving && saved.client.preference == 7
    ensures saved.server == map[1 := 7] && saved.actor == Some(1) && saved.lost == broken.lost
  {
    var chosen := After(broken, Choose(7));
    assert chosen.wire == [Flight(Job(7, false, 1, 2, 0), None)];
    var handled := After(chosen, Handled);
    assert handled.server == map[1 := 7] && handled.wire == [Flight(Job(7, false, 1, 2, 0), Some(Echo(1, 7)))];
    saved := After(handled, Delivered);
  }

  /** Such a request exists: the connection of a first save breaks, a second save succeeds, and then the
      first reaches the server. */
  lemma LateRequestUndoesSave(start: State) returns (broken: State, saved: State)
    requires start == Opened(Page(Some(1), 5, false), 0, map[1 := 5], Some(1))
    ensures broken == After(After(After(start, Choose(6)), Dropped), Delivered)
    ensures saved == After(After(After(broken, Choose(7)), Handled), Delivered)
    ensures var s := After(saved, Late(0));
            s.client.status == Done && !s.client.saving && s.client.preference == 7 && s.server == map[1 := 6]
  {
    broken := FirstSaveBreaks(start);
    saved := SecondSaveSucceeds(broken);
  }

  // ---------------------------------------------------------------- accounts stay apart

  predicate ShownAt(s: State, events: seq<Event>, i: nat, job: Job)
    requires i <= |events|
  {
    var c := AfterAll(s, events[..i]).client;
    c.account == Some(job.account) && c.preference == job.preference
  }

  ghost predicate Shown(s: State, events: seq<Event>, job: Job)
  {
    exists i: nat | i <= |events| :: ShownAt(s, events, i, job)
  }

  predicate Known(s: State, job: Job)
  {
    Holds(s, job) || job in s.lost
  }

  lemma ShownStays(s: State, events: seq<Event>, e: Event, job: Job)
    requires Shown(s, events, job)
    ensures Shown(s, events + [e], job)
  {
    var i: nat :| i <= |events| && ShownAt(s, events, i, job);
    assert (events + [e])[..i] == events[..i];
    assert ShownAt(s, events + [e], i, job);
  }

  predicate ShowsJob(c: Client, job: Job)
  {
    c.account == Some(job.account) && c.preference == job.preference
  }

  lemma NewJobs(s: State, e: Event, job: Job)
    requires Known(After(s, e), job) && !Known(s, job)
    ensures ShowsJob(After(s, e).client, job)
  {
    match e
    case Hydrate(page) => HydrateNewJobs(s, page, job);
    case Choose(_) => PageNewJobs(s, e, job);
    case Retry => PageNewJobs(s, e, job);
    case Ready => PageNewJobs(s, e, job);
    case _ => OldJobs(s, e, job);
  }

  lemma HydrateNewJobs(s: State, page: Page, job: Job)
    requires Known(After(s, Hydrate(page)), job) && !Known(s, job)
    ensures ShowsJob(After(s, Hydrate(page)).client, job)
  {
  }

  lemma PageNewJobs(s: State, e: Event, job: Job)
    requires Known(After(s, e), job) && !Known(s, job) && (e.Choose? || e.Retry? || e.Ready?)
    ensures ShowsJob(After(s, e).client, job)
  {
  }

  lemma OldJobs(s: State, e: Event, job: Job)
    requires e.SignIn? || e.GuestChanged? || e.Handled? || e.Dropped? || e.Delivered? || e.Late?
    requires Known(After(s, e), job)
    ensures Known(s, job)
  {
    match e
    case SignIn(_) =>
    case GuestChanged(_) =>
    case Handled =>
    case Dropped =>
    case Delivered =>
    case Late(_) =>
  }

  lemma {:induction false} JobsWereShown(s: State, events: seq<Event>, job: Job)
    requires Start(s) && Known(AfterAll(s, events), job)
    ensures Shown(s, events, job)
  {
    if events != [] {
      var before, last := events[..|events| - 1], events[|events| - 1];
      assert before + [last] == events;
      if Known(AfterAll(s, before), job) {
        JobsWereShown(s, before, job);
        ShownStays(s, before, last, job);
      } else {
        NewJobs(AfterAll(s, before), last, job);
        assert events[..|events|] == events;
        assert ShownAt(s, events, |events|, job);
      }
    }
  }

  /** Whatever requests are delayed, dropped or delivered late, an account only ever comes to hold a
      preference that the page has shown for that same account, and only while it is signed in. */
  lemma AccountsStayApart(s: State, events: seq<Event>, e: Event, a: Account)
    requires Start(s)
    requires var t, u := AfterAll(s, events), After(AfterAll(s, events), e);
             a in u.server && (a in t.server ==> t.server[a] != u.server[a])
    ensures AfterAll(s, events).actor == Some(a)
    ensures exists i: nat | i <= |events| :: var c := AfterAll(s, events[..i]).client;
              c.account == Some(a) && c.preference == After(AfterAll(s, events), e).server[a]
  {
    var job := Writer(AfterAll(s, events), e, a);
    JobsWereShown(s, events, job);
    var i: nat :| i <= |events| && ShownAt(s, events, i, job);
    assert AfterAll(s, events[..i]).client.account == Some(a);
  }

  lemma Writer(t: State, e: Event, a: Account) returns (job: Job)
    requires var u := After(t, e); a in u.server && (a in t.server ==> t.server[a] != u.server[a])
    ensures Known(t, job) && t.actor == Some(a) && job.account == a && job.preference == After(t, e).server[a]
  {
    match e
    case Handled => job := t.wire[0].job;
    case Late(i) => job := t.lost[i];
    case Dropped =>
    case Delivered =>
    case Hydrate(_) =>
    case SignIn(_) =>
    case Choose(_) =>
    case Retry =>
    case Ready =>
    case GuestChanged(_) =>
  }
}
