// The desktop client's error history (record_message) and the notifications drawn from it
// (take_operational_messages).
module Messages {
  const CAPACITY: nat := 256

  datatype Code = InvalidInput | Network | Remote | Storage | Crypto | Cancelled | Busy | Internal

  datatype Message = Message(id: nat, code: Code)

  /** Validation and cancellation are shown where they happen, never as notifications. */
  predicate Operational(m: Message)
  {
    m.code != InvalidInput && m.code != Cancelled
  }

  // ---------------------------------------------------------------- the two operations

  function Newest(messages: seq<Message>): (r: seq<Message>)
    ensures |messages| <= CAPACITY ==> r == messages
  {
    if |messages| > CAPACITY then messages[1..] else messages
  }

  class History {
    var messages: seq<Message>
    var nextId: nat

    constructor ()
      ensures messages == [] && nextId == 0
    {
      messages, nextId := [], 0;
    }

    method RecordMessage(code: Code)
      modifies this
      ensures nextId == old(nextId) + 1
      ensures messages == Newest(old(messages) + [Message(nextId, code)])
    {
      nextId := nextId + 1;
      messages := messages + [Message(nextId, code)];
      if |messages| > CAPACITY {
        messages := messages[1..];
      }
    }
  }

  function Ids(messages: seq<Message>): set<nat>
  {
    set m <- messages :: m.id
  }

  /** The messages that a first-come insertion into `seen` lets through. */
  function Fresh(seen: set<nat>, messages: seq<Message>): seq<Message>
    decreases messages
  {
    if messages == [] then []
    else Step(seen, messages[0]) + Fresh(seen + {messages[0].id}, messages[1..])
  }

  /** What retain keeps. */
  function Retained(seen: set<nat>, messages: seq<Message>): (kept: set<nat>)
    ensures kept == seen * Ids(messages)
  {
    set id <- seen | exists m <- messages :: m.id == id
  }

  function Step(seen: set<nat>, m: Message): seq<Message>
  {
    if m.id !in seen && Operational(m) then [m] else []
  }

  class Toasts {
    var seen: set<nat>

    constructor ()
      ensures seen == {}
    {
      seen := {};
    }

    method Take(messages: seq<Message>) returns (shown: seq<Message>)
      modifies this
      ensures seen == Ids(messages)
      ensures shown == Fresh(old(seen) * Ids(messages), messages)
    {
      seen := Retained(seen, messages);
      ghost var retained := seen;
      shown := [];
      for i := 0 to |messages|
        invariant Progress(retained, messages, i, seen, shown)
      {
        var m := messages[i];
        ProgressStep(retained, messages, i, seen, shown);
        if m.id !in seen {
          seen := seen + {m.id};
          if Operational(m) {
            shown := shown + [m];
          }
        }
      }
      ProgressEnds(retained, messages, seen, shown);
    }
  }

  /** The loop of Take, before its i-th message. */
  ghost predicate Progress(kept: set<nat>, messages: seq<Message>, i: nat, seen: set<nat>, shown: seq<Message>)
    requires i <= |messages|
  {
    seen == kept + Ids(messages[..i]) && shown + Fresh(seen, messages[i..]) == Fresh(kept, messages)
  }

  lemma ProgressStep(kept: set<nat>, messages: seq<Message>, i: nat, seen: set<nat>, shown: seq<Message>)
    requires i < |messages| && Progress(kept, messages, i, seen, shown)
    ensures var m := messages[i]; Progress(kept, messages, i + 1, seen + {m.id}, shown + Step(seen, m))
    ensures messages[i].id in seen ==> seen + {messages[i].id} == seen
    ensures shown + [] == shown
  {
    assert messages[..i + 1] == messages[..i] + [messages[i]];
    assert messages[i] in messages[..i + 1];
    assert messages[i..][1..] == messages[i + 1..];
  }

  lemma ProgressEnds(kept: set<nat>, messages: seq<Message>, seen: set<nat>, shown: seq<Message>)
    requires kept <= Ids(messages) && Progress(kept, messages, |messages|, seen, shown)
    ensures seen == Ids(messages) && shown == Fresh(kept, messages)
  {
    assert messages[..|messages|] == messages && messages[|messages|..] == [];
  }

  // ---------------------------------------------------------------- recording and polling, interleaved

  datatype Event = Record(code: Code) | Poll

  /** `shown` are all notifications so far; `polled` is the newest id at the last poll. */
  datatype State = State(messages: seq<Message>, nextId: nat, seen: set<nat>, shown: seq<Message>, polled: nat)

  function After(s: State, e: Event): State
  {
    match e
    case Record(code) => s.(messages := Newest(s.messages + [Message(s.nextId + 1, code)]), nextId := s.nextId + 1)
    case Poll => s.(seen := Ids(s.messages), shown := s.shown + Fresh(s.seen * Ids(s.messages), s.messages), polled := s.nextId)
  }

  const INITIAL: State := State([], 0, {}, [], 0)

  function AfterAll(events: seq<Event>): State
  {
    if events == [] then INITIAL else After(AfterAll(events[..|events| - 1]), events[|events| - 1])
  }

  /** The same interleaving, on the objects. */
  method Perform(history: History, toasts: Toasts, s: State, e: Event) returns (shown: seq<Message>)
    requires history.messages == s.messages && history.nextId == s.nextId && toasts.seen == s.seen
    modifies history, toasts
    ensures history.messages == After(s, e).messages && history.nextId == After(s, e).nextId
    ensures toasts.seen == After(s, e).seen && s.shown + shown == After(s, e).shown
  {
    match e
    case Record(code) =>
      history.RecordMessage(code);
      shown := [];
    case Poll =>
      shown := toasts.Take(history.messages);
  }

  ghost predicate Consecutive(messages: seq<Message>, last: nat)
  {
    |messages| <= last && forall i | 0 <= i < |messages| :: messages[i].id == last - |messages| + 1 + i
  }

  ghost predicate Increasing(messages: seq<Message>)
  {
    forall i, j | 0 <= i < j < |messages| :: messages[i].id < messages[j].id
  }

  ghost predicate Inv(s: State)
  {
    Consecutive(s.messages, s.nextId)
    && |s.messages| == (if s.nextId <= CAPACITY then s.nextId else CAPACITY)
    && s.polled <= s.nextId
    && (forall id <- s.seen :: id <= s.polled) && (forall m <- s.messages | m.id <= s.polled :: m.id in s.seen)
    && Increasing(s.shown) && (forall m <- s.shown :: m.id <= s.polled && Operational(m))
    && (forall m <- s.messages | m.id <= s.polled && Operational(m) :: m in s.shown)
  }

  /** What Fresh selects from a history, and in which order. */
  lemma {:induction false} FreshSelects(seen: set<nat>, messages: seq<Message>)
    requires Increasing(messages)
    ensures forall m :: m in Fresh(seen, messages) <==> m in messages && m.id !in seen && Operational(m)
    ensures Increasing(Fresh(seen, messages))
    decreases messages
  {
    if messages != [] {
      var m, rest := messages[0], messages[1..];
      assert forall x <- rest :: x.id > m.id;
      FreshSelects(seen + {m.id}, rest);
      assert messages == [m] + rest;
      FirstIsLeast(m, Fresh(seen + {m.id}, rest));
    }
  }

  lemma FirstIsLeast(m: Message, rest: seq<Message>)
    requires Increasing(rest) && forall x <- rest :: x.id > m.id
    ensures Increasing([m] + rest)
  {
    forall j | 0 <= j < |rest| ensures rest[j].id > m.id {
      assert rest[j] in rest;
    }
  }

  lemma Appended(shown: seq<Message>, added: seq<Message>, polled: nat)
    requires Increasing(shown) && Increasing(added)
    requires (forall m <- shown :: m.id <= polled) && (forall m <- added :: m.id > polled)
    ensures Increasing(shown + added)
  {
    forall i, j | 0 <= i < |shown| && 0 <= j < |added| ensures shown[i].id < added[j].id {
      assert shown[i] in shown && added[j] in added;
    }
  }

  lemma EventKeepsInv(s: State, e: Event)
    requires Inv(s)
    ensures Inv(After(s, e))
  {
    match e
    case Record(code) =>
      var t := After(s, e);
      forall m <- t.messages ensures m in s.messages || m.id == t.nextId {
        assert m in s.messages + [Message(s.nextId + 1, code)];
      }
    case Poll =>
      var seen := s.seen * Ids(s.messages);
      FreshSelects(seen, s.messages);
      Appended(s.shown, Fresh(seen, s.messages), s.polled);
  }

  lemma {:induction false} RunsKeepInv(events: seq<Event>)
    ensures Inv(AfterAll(events))
  {
    if events != [] {
      RunsKeepInv(events[..|events| - 1]);
      EventKeepsInv(AfterAll(events[..|events| - 1]), events[|events| - 1]);
    }
  }

  // ---------------------------------------------------------------- main results

  /** Identifiers in the history are consecutive and end with the newest, and the history is bounded. */
  lemma HistoryIsRecent(events: seq<Event>)
    ensures var s := AfterAll(events);
            && |s.messages| <= CAPACITY
            && Increasing(s.messages)
            && (s.messages != [] ==> s.messages[|s.messages| - 1].id == s.nextId)
  {
    RunsKeepInv(events);
  }

  /** No notification appears twice, even once its message has left the history: identifiers of
      notifications increase over the whole run. */
  lemma NothingIsShownTwice(events: seq<Event>)
    ensures Increasing(AfterAll(events).shown)
    ensures forall m <- AfterAll(events).shown :: Operational(m)
  {
    RunsKeepInv(events);
  }

  /** After a poll every operational message of the history has been shown, and the seen set is the
      history's own set of identifiers. */
  lemma PollShowsEverything(events: seq<Event>)
    ensures var s := AfterAll(events + [Poll]);
            && (forall m <- s.messages | Operational(m) :: m in s.shown)
            && s.seen == Ids(s.messages)
  {
    RunsKeepInv(events + [Poll]);
    assert (events + [Poll])[..|events|] == events;
    HistoryIsRecent(events);
  }

  /** A recorded message that is followed by a burst of others and then a poll. */
  lemma {:induction false} AfterBurst(events: seq<Event>, code: Code, burst: seq<Event>)
    requires forall e <- burst :: e.Record?
    ensures var s, t := AfterAll(events), AfterAll(events + [Record(code)] + burst);
            && t.nextId == s.nextId + 1 + |burst| && t.shown == s.shown && t.polled == s.polled
            && forall m <- t.messages | m.id == s.nextId + 1 :: m.code == code
  {
    var all := events + [Record(code)] + burst;
    if burst == [] {
      assert all == events + [Record(code)] && all[..|all| - 1] == events;
      RunsKeepInv(events);
      forall m <- AfterAll(all).messages | m.id == AfterAll(events).nextId + 1 ensures m.code == code {
        assert m in AfterAll(events).messages + [Message(AfterAll(events).nextId + 1, code)];
      }
    } else {
      var last := burst[|burst| - 1];
      assert all[..|all| - 1] == events + [Record(code)] + burst[..|burst| - 1];
      AfterBurst(events, code, burst[..|burst| - 1]);
      var s := AfterAll(all[..|all| - 1]);
      forall m <- AfterAll(all).messages | m.id == AfterAll(events).nextId + 1 ensures m.code == code {
        assert m in s.messages + [Message(s.nextId + 1, last.code)];
      }
    }
  }

  lemma {:induction false} NothingOldIsShown(events: seq<Event>, more: seq<Event>, m: Message)
    requires m.id <= AfterAll(events).polled
    ensures m in AfterAll(events + more).shown <==> m in AfterAll(events).shown
    ensures AfterAll(events).polled <= AfterAll(events + more).polled
  {
    var all := events + more;
    if more == [] {
      assert all == events;
    } else {
      assert all[..|all| - 1] == events + more[..|more| - 1];
      NothingOldIsShown(events, more[..|more| - 1], m);
      var s := AfterAll(all[..|all| - 1]);
      RunsKeepInv(all[..|all| - 1]);
      RunsKeepInv(all);
      if all[|all| - 1].Poll? {
        FreshSelects(s.seen * Ids(s.messages), s.messages);
      }
    }
  }

  /** Exactly once or never: a message recorded before a burst of others and a poll is among the
      notifications of any continuation if and only if it is operational and the burst is shorter than
      the history. */
  lemma ShownExactly(events: seq<Event>, code: Code, burst: seq<Event>, more: seq<Event>)
    requires forall e <- burst :: e.Record?
    ensures var m := Message(AfterAll(events).nextId + 1, code);
            m in AfterAll(events + [Record(code)] + burst + [Poll] + more).shown
            <==> code != InvalidInput && code != Cancelled && |burst| < 256
  {
    var before := events + [Record(code)] + burst;
    var s, t := AfterAll(events), AfterAll(before);
    var m := Message(s.nextId + 1, code);
    assert (before + [Poll])[..|before|] == before;
    RunsKeepInv(events);
    RunsKeepInv(before);
    EventKeepsInv(t, Poll);
    AfterBurst(events, code, burst);
    PollShows(t, m, |burst|);
    NothingOldIsShown(before + [Poll], more, m);
  }

  lemma PollShows(t: State, m: Message, burst: nat)
    requires Inv(t) && m.id + burst == t.nextId && t.polled < m.id
    requires forall x <- t.messages | x.id == m.id :: x.code == m.code
    ensures m in After(t, Poll).shown <==> Operational(m) && burst < CAPACITY
  {
    FreshSelects(t.seen * Ids(t.messages), t.messages);
    if burst < CAPACITY {
      var newer := t.messages[|t.messages| - 1 - burst];
      assert newer in t.messages && newer == m;
    }
  }

  /** A notification that is lost: 256 others are recorded before the next poll, and no later one brings
      it back. */
  lemma BurstHidesMessage(more: seq<Event>)
    ensures var burst := seq(CAPACITY, _ => Record(Network));
            Message(1, Remote) !in AfterAll([] + [Record(Remote)] + burst + [Poll] + more).shown
  {
    ShownExactly([], Remote, seq(CAPACITY, _ => Record(Network)), more);
  }
}
