// Committing ledgers from several writers at once: drain the writes, then compare-and-set the
// latest sequence (src/backend/CassandraBackend.h, doFinishWritesSync and executeSyncUpdate;
// src/backend/BackendInterface.cpp, finishWrites).
module Commit {
  import opened Wrappers
  import Runs

  type WriteId = nat

  // The rows every writer of a ledger has to write.
  type Needed = nat -> set<WriteId>

  datatype Phase =
    | Idle
    // Writes issued so far, and those not yet acknowledged.
    | Building(issued: set<WriteId>, outstanding: set<WriteId>)
    // In the retry loop of the conditional update.
    | Updating(timedOut: bool)
    // The update was refused after a timeout: about to read the range.
    | Checking
    // Told whether it committed; `seen` is the stored sequence at that moment.
    | Returned(committed: bool, timedOut: bool, seen: nat)

  // `ticket` tells this attempt from all others, `base` is the stored sequence when it began, and
  // `known` is the newest ledger of the process's own range.
  datatype Writer = Writer(ledger: nat, ticket: nat, base: nat, phase: Phase, known: nat)

  // A conditional update of some attempt. Its retries are the same update again.
  datatype Update = Update(ticket: nat, ledger: nat)

  // Whose update made a ledger the latest, and whether it had timed out before it was applied.
  datatype Landing = Landing(ticket: nat, late: bool)

  // `rows` are the rows in the database, `late` the updates that timed out and may yet be applied,
  // and `gained` tells for each ledger gained whose update gained it.
  datatype System = System(
    first: nat, latest: nat, rows: set<(nat, WriteId)>, writers: seq<Writer>,
    late: multiset<Update>, gained: map<nat, Landing>, tickets: nat)

  datatype Event =
    | Start(w: nat, ledger: nat)
    | Issue(w: nat, id: WriteId)
    | Land(row: (nat, WriteId))
    | Acknowledge(w: nat, id: WriteId)
    | Sync(w: nat)
    | Apply(w: nat)
    | Refuse(w: nat)
    | TimeOut(w: nat)
    | Check(w: nat)
    | ApplyLate(update: Update)
    | DropLate(update: Update)
    // The process's own range is set to a ledger found in the database, or committed earlier.
    | Publish(w: nat, ledger: nat)
    | Crash(w: nat)

  function SetPhase(s: System, w: nat, phase: Phase): System
    requires w < |s.writers|
  {
    s.(writers := s.writers[w := s.writers[w].(phase := phase)])
  }

  // A writer told that it committed tells its own process the new range.
  function Answer(s: System, w: nat, committed: bool, timedOut: bool): System
    requires w < |s.writers|
  {
    var writer := s.writers[w];
    s.(writers := s.writers[w := writer.(
      phase := Returned(committed, timedOut, s.latest),
      known := if committed then writer.ledger else writer.known)])
  }

  // UPDATE ledger_range SET sequence = ledger IF sequence IN (ledger - 1, null)
  predicate Matches(latest: nat, ledger: nat) {
    latest == ledger - 1
  }

  predicate Enabled(needed: Needed, s: System, e: Event) {
    match e
    case Start(w, ledger) => w < |s.writers| && (s.writers[w].phase.Idle? || s.writers[w].phase.Returned?)
    case Issue(w, id) => w < |s.writers| && s.writers[w].phase.Building? && id in needed(s.writers[w].ledger)
    case Land(row) => row.1 in needed(row.0)
    case Acknowledge(w, id) =>
      w < |s.writers| && s.writers[w].phase.Building?
      && id in s.writers[w].phase.outstanding && (s.writers[w].ledger, id) in s.rows
    case Sync(w) =>
      w < |s.writers| && s.writers[w].phase.Building?
      && s.writers[w].phase.issued == needed(s.writers[w].ledger) && s.writers[w].phase.outstanding == {}
    case Apply(w) => w < |s.writers| && s.writers[w].phase.Updating? && Matches(s.latest, s.writers[w].ledger)
    case Refuse(w) => w < |s.writers| && s.writers[w].phase.Updating? && !Matches(s.latest, s.writers[w].ledger)
    case TimeOut(w) => w < |s.writers| && s.writers[w].phase.Updating?
    case Check(w) => w < |s.writers| && s.writers[w].phase.Checking?
    case ApplyLate(u) => u in s.late && Matches(s.latest, u.ledger)
    case DropLate(u) => u in s.late
    case Publish(w, ledger) => w < |s.writers| && ledger <= s.latest
    case Crash(w) => w < |s.writers|
  }

  function Next(needed: Needed, s: System, e: Event): System
    requires Enabled(needed, s, e)
  {
    match e
    case Start(w, ledger) =>
      s.(writers := s.writers[w := Writer(ledger, s.tickets, s.latest, Building({}, {}), s.writers[w].known)],
         tickets := s.tickets + 1)
    case Issue(w, id) =>
      var p := s.writers[w].phase;
      SetPhase(s, w, Building(p.issued + {id}, p.outstanding + {id}))
    case Land(row) => s.(rows := s.rows + {row})
    case Acknowledge(w, id) =>
      var p := s.writers[w].phase;
      SetPhase(s, w, Building(p.issued, p.outstanding - {id}))
    case Sync(w) => SetPhase(s, w, Updating(false))
    case Apply(w) =>
      var writer := s.writers[w];
      Answer(s.(latest := writer.ledger, gained := s.gained[writer.ledger := Landing(writer.ticket, false)]),
             w, true, writer.phase.timedOut)
    case Refuse(w) =>
      if s.writers[w].phase.timedOut then SetPhase(s, w, Checking) else Answer(s, w, false, false)
    case TimeOut(w) =>
      SetPhase(s, w, Updating(true)).(late := s.late + multiset{Update(s.writers[w].ticket, s.writers[w].ledger)})
    case Check(w) => Answer(s, w, s.latest == s.writers[w].ledger, true)
    case ApplyLate(u) =>
      s.(latest := u.ledger, late := s.late - multiset{u}, gained := s.gained[u.ledger := Landing(u.ticket, true)])
    case DropLate(u) => s.(late := s.late - multiset{u})
    case Publish(w, ledger) => s.(writers := s.writers[w := s.writers[w].(known := ledger)])
    case Crash(w) => SetPhase(s, w, Idle)
  }

  /* Invariant: ledgers are complete */

  ghost predicate Complete(needed: Needed, rows: set<(nat, WriteId)>, ledger: nat) {
    forall id | id in needed(ledger) :: (ledger, id) in rows
  }

  ghost predicate WriterOk(needed: Needed, s: System, writer: Writer) {
    && writer.known <= s.latest
    && match writer.phase
       case Idle => true
       case Building(issued, outstanding) =>
         forall id | id in issued && id !in outstanding :: (writer.ledger, id) in s.rows
       case Updating(_) => Complete(needed, s.rows, writer.ledger)
       case Checking => Complete(needed, s.rows, writer.ledger)
       case Returned(committed, _, _) =>
         committed ==> s.first <= writer.ledger <= s.latest && Complete(needed, s.rows, writer.ledger)
  }

  ghost predicate AllComplete(needed: Needed, s: System) {
    && s.first <= s.latest
    && (forall l | s.first <= l <= s.latest :: Complete(needed, s.rows, l))
    && (forall w | 0 <= w < |s.writers| :: WriterOk(needed, s, s.writers[w]))
    && (forall u | u in s.late :: Complete(needed, s.rows, u.ledger))
  }

  /* Invariant: whose update was applied */

  predicate TimedOut(phase: Phase) {
    match phase
    case Updating(timedOut) => timedOut
    case Checking => true
    case Returned(_, timedOut, _) => timedOut
    case _ => false
  }

  // The ledger was gained by this very attempt.
  predicate Own(s: System, writer: Writer) {
    writer.ledger in s.gained && s.gained[writer.ledger].ticket == writer.ticket
  }

  // What an answer says of the stored sequence.
  ghost predicate Told(s: System, writer: Writer) {
    match writer.phase
    case Checking => writer.ledger <= writer.base + 1 ==> writer.ledger <= s.latest
    case Returned(committed, timedOut, seen) =>
      && writer.base <= seen <= s.latest
      && (committed ==> seen == writer.ledger)
      && (committed && !timedOut ==> Own(s, writer))
      && (!committed && timedOut ==> seen != writer.ledger)
      && (!committed && writer.ledger <= writer.base + 1 ==> writer.ledger <= seen)
    case _ => true
  }

  // Only an attempt that timed out has a late update; one whose update was applied at once knows it.
  ghost predicate Traced(s: System, writer: Writer) {
    && writer.ticket < s.tickets && writer.base <= s.latest
    && (forall l | l in s.gained && s.gained[l].ticket == writer.ticket ::
          && l == writer.ledger
          && (if s.gained[l].late then TimedOut(writer.phase) else writer.phase.Returned? && writer.phase.committed))
    && (forall u | u in s.late && u.ticket == writer.ticket :: u.ledger == writer.ledger && TimedOut(writer.phase))
    && Told(s, writer)
  }

  ghost predicate AllTraced(s: System) {
    && (forall w | 0 <= w < |s.writers| && !s.writers[w].phase.Idle? :: Traced(s, s.writers[w]))
    && (forall w, v | 0 <= w < v < |s.writers| && !s.writers[w].phase.Idle? && !s.writers[v].phase.Idle? ::
          s.writers[w].ticket != s.writers[v].ticket)
    && (forall l | l in s.gained :: l <= s.latest && s.gained[l].ticket < s.tickets)
    && (forall u | u in s.late :: u.ticket < s.tickets)
  }

  ghost predicate Inv(needed: Needed, s: System) {
    AllComplete(needed, s) && AllTraced(s)
  }

  predicate Applies(e: Event) {
    e.Apply? || e.ApplyLate?
  }

  // Whoever tries to update the range has a complete ledger.
  lemma UpdateIsComplete(needed: Needed, s: System, e: Event)
    requires AllComplete(needed, s) && Enabled(needed, s, e)
    ensures e.Apply? || e.TimeOut? || e.Refuse? ==> Complete(needed, s.rows, s.writers[e.w].ledger)
  {
    if e.Apply? || e.TimeOut? || e.Refuse? {
      assert WriterOk(needed, s, s.writers[e.w]);
    }
  }

  // The process's own range is set to an older ledger.
  predicate SetsBack(s: System, e: Event, w: nat)
    requires w < |s.writers|
  {
    e.Publish? && e.w == w && e.ledger < s.writers[w].known
  }

  // A process's own range never passes the stored one, and goes back exactly when a ledger older
  // than the range is published.
  lemma WriterStep(needed: Needed, s: System, e: Event, w: nat)
    requires AllComplete(needed, s) && Enabled(needed, s, e) && w < |s.writers|
    ensures |Next(needed, s, e).writers| == |s.writers|
    ensures WriterOk(needed, Next(needed, s, e), Next(needed, s, e).writers[w])
    ensures Next(needed, s, e).writers[w].known < s.writers[w].known <==> SetsBack(s, e, w)
  {
    assert WriterOk(needed, s, s.writers[w]);
    UpdateIsComplete(needed, s, e);
  }

  lemma StepCompletes(needed: Needed, s: System, e: Event)
    requires AllComplete(needed, s) && Enabled(needed, s, e)
    ensures AllComplete(needed, Next(needed, s, e))
  {
    forall w | 0 <= w < |s.writers| {
      WriterStep(needed, s, e, w);
    }
    UpdateIsComplete(needed, s, e);
    var t := Next(needed, s, e);
    forall l: nat | Complete(needed, s.rows, l) ensures Complete(needed, t.rows, l) {
      assert forall id | id in needed(l) :: (l, id) in s.rows;
    }
  }

  // The event is a step of this writer.
  predicate Takes(e: Event, w: nat) {
    !e.Land? && !e.ApplyLate? && !e.DropLate? && e.w == w
  }

  // Of another attempt, a step changes at most what everyone can see.
  lemma TracedApart(needed: Needed, s: System, e: Event, writer: Writer)
    requires Traced(s, writer) && Enabled(needed, s, e)
    requires e.Apply? || e.TimeOut? ==> s.writers[e.w].ticket != writer.ticket
    ensures Traced(Next(needed, s, e), writer)
  {
  }

  // A new attempt has a ticket of its own.
  lemma TracedStart(needed: Needed, s: System, e: Event)
    requires AllTraced(s) && Enabled(needed, s, e) && e.Start?
    ensures Traced(Next(needed, s, e), Next(needed, s, e).writers[e.w])
  {
  }

  lemma TracedOwn(needed: Needed, s: System, e: Event, w: nat)
    requires AllTraced(s) && Enabled(needed, s, e) && w < |s.writers| && Takes(e, w)
    requires !e.Start? && !e.Crash? && !s.writers[w].phase.Idle?
    ensures Traced(Next(needed, s, e), Next(needed, s, e).writers[w])
  {
    assert Traced(s, s.writers[w]);
  }

  lemma StepTraces(needed: Needed, s: System, e: Event)
    requires AllTraced(s) && Enabled(needed, s, e)
    ensures AllTraced(Next(needed, s, e))
  {
    var t := Next(needed, s, e);
    forall w: nat | w < |t.writers| && !t.writers[w].phase.Idle? ensures Traced(t, t.writers[w]) {
      if !Takes(e, w) {
        assert t.writers[w] == s.writers[w];
        TracedApart(needed, s, e, s.writers[w]);
      } else if e.Start? {
        TracedStart(needed, s, e);
      } else {
        TracedOwn(needed, s, e, w);
      }
    }
    TicketsDiffer(needed, s, e);
    TicketsAreKnown(needed, s, e);
  }

  lemma TicketsDiffer(needed: Needed, s: System, e: Event)
    requires AllTraced(s) && Enabled(needed, s, e)
    ensures var t := Next(needed, s, e);
      && |t.writers| == |s.writers|
      && forall w, v | 0 <= w < v < |t.writers| && !t.writers[w].phase.Idle? && !t.writers[v].phase.Idle? ::
           t.writers[w].ticket != t.writers[v].ticket
  {
    assert forall w | 0 <= w < |s.writers| && !s.writers[w].phase.Idle? :: s.writers[w].ticket < s.tickets;
  }

  lemma TicketsAreKnown(needed: Needed, s: System, e: Event)
    requires AllTraced(s) && Enabled(needed, s, e)
    ensures var t := Next(needed, s, e);
      && (forall l | l in t.gained :: l <= t.latest && t.gained[l].ticket < t.tickets)
      && (forall u | u in t.late :: u.ticket < t.tickets)
  {
    if e.Apply? || e.TimeOut? {
      assert Traced(s, s.writers[e.w]);
    }
  }

  // Every step keeps the invariant; no row is lost, the stored sequence moves by one exactly when
  // an update is applied, and a process's own range moves back exactly when an older ledger is published.
  lemma StepKeeps(needed: Needed, s: System, e: Event)
    requires Inv(needed, s) && Enabled(needed, s, e)
    ensures var t := Next(needed, s, e);
      && Inv(needed, t)
      && t.latest == s.latest + (if Applies(e) then 1 else 0) && t.first == s.first && s.rows <= t.rows
      && |t.writers| == |s.writers|
      && forall w | 0 <= w < |s.writers| :: t.writers[w].known < s.writers[w].known <==> SetsBack(s, e, w)
  {
    StepCompletes(needed, s, e);
    StepTraces(needed, s, e);
    forall w | 0 <= w < |s.writers| {
      WriterStep(needed, s, e, w);
    }
  }

  /* Runs */

  // Nobody writes yet, and every ledger of the range is complete.
  ghost predicate Start(needed: Needed, s: System) {
    && s.first <= s.latest
    && (forall l | s.first <= l <= s.latest :: Complete(needed, s.rows, l))
    && (forall w | 0 <= w < |s.writers| :: s.writers[w].phase.Idle? && s.writers[w].known <= s.latest)
    && s.late == multiset{} && s.gained == map[]
  }

  function Try(needed: Needed): (System, Event) -> Option<System> {
    (s, e) => if Enabled(needed, s, e) then Some(Next(needed, s, e)) else None
  }

  function Exec(needed: Needed, s: System, events: seq<Event>): Option<System> {
    Runs.Exec(Try(needed), s, events)
  }

  function Applied(events: seq<Event>): nat {
    if events == [] then 0
    else Applied(events[..|events| - 1]) + if Applies(events[|events| - 1]) then 1 else 0
  }

  // In every run the invariant holds, and the stored sequence has moved once per applied update.
  lemma {:induction false} RunKeeps(needed: Needed, s: System, events: seq<Event>)
    requires Start(needed, s) && Exec(needed, s, events).Some?
    ensures Inv(needed, Exec(needed, s, events).value)
    ensures Exec(needed, s, events).value.latest == s.latest + Applied(events)
    ensures Exec(needed, s, events).value.first == s.first && |Exec(needed, s, events).value.writers| == |s.writers|
  {
    if events != [] {
      RunKeeps(needed, s, events[..|events| - 1]);
      StepKeeps(needed, Exec(needed, s, events[..|events| - 1]).value, events[|events| - 1]);
    }
  }

  // At every moment each ledger up to the stored one has all its rows, and so has every ledger
  // whose writer was told that it committed; that ledger is not past the stored one.
  lemma CommittedLedgersAreComplete(needed: Needed, s: System, events: seq<Event>)
    requires Start(needed, s) && Exec(needed, s, events).Some?
    ensures var t := Exec(needed, s, events).value;
      && (forall l | s.first <= l <= t.latest :: Complete(needed, t.rows, l))
      && (forall w | 0 <= w < |t.writers| && t.writers[w].phase.Returned? && t.writers[w].phase.committed ::
            t.writers[w].ledger <= t.latest && Complete(needed, t.rows, t.writers[w].ledger))
      && (forall w | 0 <= w < |t.writers| :: t.writers[w].known <= t.latest)
  {
    RunKeeps(needed, s, events);
    var t := Exec(needed, s, events).value;
    forall w | 0 <= w < |t.writers|
      ensures t.writers[w].known <= t.latest
      ensures t.writers[w].phase.Returned? && t.writers[w].phase.committed ==>
        t.writers[w].ledger <= t.latest && Complete(needed, t.rows, t.writers[w].ledger)
    {
      assert WriterOk(needed, t, t.writers[w]);
    }
  }

  // The process's own range after the first `i` events.
  function KnownAfter(needed: Needed, s: System, events: seq<Event>, i: nat, w: nat): Option<nat>
    requires i <= |events|
  {
    match Exec(needed, s, events[..i])
    case None => None
    case Some(t) => if w < |t.writers| then Some(t.writers[w].known) else None
  }

  // Over every run, the assertion that a process's range does not go back fails at just those
  // moments when the process publishes a ledger older than its range.
  lemma RangeGoesBackIff(needed: Needed, s: System, events: seq<Event>, i: nat, w: nat)
    requires Start(needed, s) && Exec(needed, s, events).Some? && i < |events| && w < |s.writers|
    ensures KnownAfter(needed, s, events, i, w).Some? && KnownAfter(needed, s, events, i + 1, w).Some?
    ensures var before, after := KnownAfter(needed, s, events, i, w).value, KnownAfter(needed, s, events, i + 1, w).value;
      after < before <==> events[i].Publish? && events[i].w == w && events[i].ledger < before
  {
    PrefixRuns(needed, s, events, i);
    PrefixRuns(needed, s, events, i + 1);
    RunKeeps(needed, s, events[..i]);
    assert events[..i + 1][..i] == events[..i];
    StepKeeps(needed, Exec(needed, s, events[..i]).value, events[i]);
  }

  lemma {:induction false} PrefixRuns(needed: Needed, s: System, events: seq<Event>, i: nat)
    requires Start(needed, s) && Exec(needed, s, events).Some? && i <= |events|
    ensures Exec(needed, s, events[..i]).Some?
    ensures Exec(needed, s, events[..i]).value.latest <= Exec(needed, s, events).value.latest
  {
    if i < |events| {
      var front := events[..|events| - 1];
      PrefixRuns(needed, s, front, i);
      assert front[..i] == events[..i];
      RunKeeps(needed, s, front);
      StepKeeps(needed, Exec(needed, s, front).value, events[|events| - 1]);
    } else {
      assert events[..i] == events;
    }
  }

  // The i-th event makes `ledger` the latest.
  ghost predicate CommitsAt(needed: Needed, s: System, events: seq<Event>, i: nat, ledger: nat) {
    && i < |events| && Applies(events[i])
    && Exec(needed, s, events[..i]).Some? && Exec(needed, s, events[..i]).value.latest + 1 == ledger
    && Exec(needed, s, events[..i + 1]).Some? && Exec(needed, s, events[..i + 1]).value.latest == ledger
  }

  // Each ledger gained in a run is committed by exactly one update, however many writers raced for it.
  lemma {:induction false} CommittedOnce(needed: Needed, s: System, events: seq<Event>, ledger: nat)
    requires Start(needed, s) && Exec(needed, s, events).Some?
    requires s.latest < ledger <= Exec(needed, s, events).value.latest
    ensures exists i: nat :: CommitsAt(needed, s, events, i, ledger)
    ensures forall i: nat, j: nat | CommitsAt(needed, s, events, i, ledger) && CommitsAt(needed, s, events, j, ledger) ::
      i == j
  {
    CommittedSometime(needed, s, events, ledger);
    forall i: nat, j: nat | i < j && CommitsAt(needed, s, events, i, ledger)
      ensures !CommitsAt(needed, s, events, j, ledger)
    {
      NotCommittedAgain(needed, s, events, i, j, ledger);
    }
  }

  lemma NotCommittedAgain(needed: Needed, s: System, events: seq<Event>, i: nat, j: nat, ledger: nat)
    requires Start(needed, s) && CommitsAt(needed, s, events, i, ledger) && i < j
    ensures !CommitsAt(needed, s, events, j, ledger)
  {
    if j < |events| && Exec(needed, s, events[..j]).Some? {
      assert events[..j][..i + 1] == events[..i + 1];
      PrefixRuns(needed, s, events[..j], i + 1);
    }
  }

  lemma {:induction false} CommittedSometime(needed: Needed, s: System, events: seq<Event>, ledger: nat)
    requires Start(needed, s) && Exec(needed, s, events).Some?
    requires s.latest < ledger <= Exec(needed, s, events).value.latest
    ensures exists i: nat :: CommitsAt(needed, s, events, i, ledger)
  {
    var last := |events| - 1;
    var front := events[..last];
    RunKeeps(needed, s, front);
    StepKeeps(needed, Exec(needed, s, front).value, events[last]);
    if ledger <= Exec(needed, s, front).value.latest {
      CommittedSometime(needed, s, front, ledger);
      var i: nat :| CommitsAt(needed, s, front, i, ledger);
      assert front[..i] == events[..i] && front[..i + 1] == events[..i + 1];
      assert CommitsAt(needed, s, events, i, ledger);
    } else {
      assert events[..last + 1] == events;
      assert CommitsAt(needed, s, events, last, ledger);
    }
  }


  /* What an answer is worth */

  lemma LateLandingStep(needed: Needed, s: System, e: Event, u: Update)
    requires AllTraced(s) && Enabled(needed, s, e)
    ensures var t := Next(needed, s, e);
      (u.ledger in t.gained && t.gained[u.ledger] == Landing(u.ticket, true))
      <==> e == ApplyLate(u) || (u.ledger in s.gained && s.gained[u.ledger] == Landing(u.ticket, true))
  {
  }

  // A ledger was gained by a late update exactly when that update is among the events.
  lemma {:induction false} LateLanding(needed: Needed, s: System, events: seq<Event>, u: Update)
    requires Start(needed, s) && Exec(needed, s, events).Some?
    ensures var t := Exec(needed, s, events).value;
      u.ledger in t.gained && t.gained[u.ledger] == Landing(u.ticket, true) <==> ApplyLate(u) in events
  {
    if events != [] {
      var front, e := events[..|events| - 1], events[|events| - 1];
      LateLanding(needed, s, front, u);
      RunKeeps(needed, s, front);
      LateLandingStep(needed, Exec(needed, s, front).value, e, u);
      assert events == front + [e];
    }
  }

  // In every run: a writer told true has its ledger committed, by its own update unless an attempt
  // timed out. A writer told false has had its own update applied if and only if an attempt timed
  // out and that update landed late; if it had seen its parent committed, the stored sequence had
  // then gone past its ledger when it looked. Without a timeout the answer is the truth.
  lemma AnswersAreExplained(needed: Needed, s: System, events: seq<Event>, w: nat)
    requires Start(needed, s) && Exec(needed, s, events).Some?
    requires var t := Exec(needed, s, events).value; w < |t.writers| && t.writers[w].phase.Returned?
    ensures var t := Exec(needed, s, events).value;
      var writer, phase := t.writers[w], t.writers[w].phase;
      && (phase.committed ==> s.first <= writer.ledger <= t.latest && (Own(t, writer) || phase.timedOut))
      && (!phase.committed ==>
           (Own(t, writer) <==> phase.timedOut && ApplyLate(Update(writer.ticket, writer.ledger)) in events))
      && (!phase.committed && Own(t, writer) ==>
           phase.seen != writer.ledger && (writer.ledger <= writer.base + 1 ==> writer.ledger < phase.seen))
      && (!phase.timedOut ==> (phase.committed <==> Own(t, writer)))
  {
    RunKeeps(needed, s, events);
    var t := Exec(needed, s, events).value;
    LateLanding(needed, s, events, Update(t.writers[w].ticket, t.writers[w].ledger));
    assert Traced(t, t.writers[w]) && WriterOk(needed, t, t.writers[w]);
  }

  /* Both answers can mislead */

  const NO_ROWS: Needed := _ => {}

  // Two processes between ledgers, ledger 5 being the newest; nothing has to be written.
  const CALM := System(5, 5, {}, [Writer(5, 0, 5, Idle, 5), Writer(5, 0, 5, Idle, 5)], multiset{}, map[], 0)

  function At(latest: nat, a: Writer, b: Writer, late: multiset<Update>, gained: map<nat, Landing>): System {
    System(5, latest, {}, [a, b], late, gained, 2)
  }

  predicate FirstIsTold(s: System, committed: bool) {
    |s.writers| > 0 && s.writers[0].phase.Returned? && s.writers[0].phase.committed == committed
  }

  lemma Joined(s: System, a: seq<Event>, t: System, b: seq<Event>, u: System)
    requires Exec(NO_ROWS, s, a) == Some(t) && Exec(NO_ROWS, t, b) == Some(u)
    ensures Exec(NO_ROWS, s, a + b) == Some(u)
  {
    Runs.ExecConcat(Try(NO_ROWS), s, a, t, b);
  }

  lemma Three(s: System, e: Event, t: System, f: Event, u: System, g: Event, v: System)
    requires Enabled(NO_ROWS, s, e) && Next(NO_ROWS, s, e) == t
    requires Enabled(NO_ROWS, t, f) && Next(NO_ROWS, t, f) == u
    requires Enabled(NO_ROWS, u, g) && Next(NO_ROWS, u, g) == v
    ensures Exec(NO_ROWS, s, [e, f, g]) == Some(v)
  {
    Runs.ExecThree(Try(NO_ROWS), s, e, t, f, u, g);
  }

  // The first process has tried to commit ledger 6 and does not know whether it did.
  const LATE_UPDATE := Update(0, 6)
  const LATE_WRITER := Writer(6, 0, 5, Updating(true), 5)
  const HANGS := [Event.Start(0, 6), Sync(0), TimeOut(0)]
  const HANGING := System(5, 5, {}, [LATE_WRITER, Writer(5, 0, 5, Idle, 5)], multiset{LATE_UPDATE}, map[], 1)

  lemma FirstTimesOut()
    ensures Exec(NO_ROWS, CALM, HANGS) == Some(HANGING)
  {
    var idle := Writer(5, 0, 5, Idle, 5);
    var a := CALM.(writers := [Writer(6, 0, 5, Building({}, {}), 5), idle], tickets := 1);
    var b := CALM.(writers := [Writer(6, 0, 5, Updating(false), 5), idle], tickets := 1);
    Three(CALM, Event.Start(0, 6), a, Sync(0), b, TimeOut(0), HANGING);
  }

  // The first process's update times out and lands late, the second goes on to the next ledger, and
  // the first is told that it failed.
  lemma RefusedYetCommitted() returns (events: seq<Event>)
    ensures Start(NO_ROWS, CALM)
    ensures var end := Exec(NO_ROWS, CALM, events);
      end.Some? && |end.value.writers| == 2 && FirstIsTold(end.value, false) && Own(end.value, end.value.writers[0])
  {
    FirstTimesOut();
    var landed := map[6 := Landing(0, true)];
    var b1 := HANGING.(latest := 6, late := multiset{}, gained := landed);
    var b2 := At(6, LATE_WRITER, Writer(7, 1, 6, Building({}, {}), 5), multiset{}, landed);
    var b := At(6, LATE_WRITER, Writer(7, 1, 6, Updating(false), 5), multiset{}, landed);
    Three(HANGING, ApplyLate(LATE_UPDATE), b1, Event.Start(1, 7), b2, Sync(1), b);
    var second := Writer(7, 1, 6, Returned(true, false, 7), 7);
    var both := map[6 := Landing(0, true), 7 := Landing(1, false)];
    var c1 := At(7, LATE_WRITER, second, multiset{}, both);
    var c2 := At(7, Writer(6, 0, 5, Checking, 5), second, multiset{}, both);
    var c := At(7, Writer(6, 0, 5, Returned(false, true, 7), 5), second, multiset{}, both);
    Three(b, Apply(1), c1, Refuse(0), c2, Check(0), c);
    events := HANGS + [ApplyLate(LATE_UPDATE), Event.Start(1, 7), Sync(1)];
    Joined(CALM, HANGS, HANGING, [ApplyLate(LATE_UPDATE), Event.Start(1, 7), Sync(1)], b);
    Joined(CALM, events, b, [Apply(1), Refuse(0), Check(0)], c);
    events := events + [Apply(1), Refuse(0), Check(0)];
  }

  // The first process's update times out and is lost, the second commits the same ledger, and the
  // first is told that it committed.
  lemma AcceptedButNotOwn() returns (events: seq<Event>)
    ensures Start(NO_ROWS, CALM)
    ensures var end := Exec(NO_ROWS, CALM, events);
      end.Some? && |end.value.writers| == 2 && FirstIsTold(end.value, true) && !Own(end.value, end.value.writers[0])
  {
    FirstTimesOut();
    var b1 := HANGING.(late := multiset{});
    var b2 := At(5, LATE_WRITER, Writer(6, 1, 5, Building({}, {}), 5), multiset{}, map[]);
    var b := At(5, LATE_WRITER, Writer(6, 1, 5, Updating(false), 5), multiset{}, map[]);
    Three(HANGING, DropLate(LATE_UPDATE), b1, Event.Start(1, 6), b2, Sync(1), b);
    var second := Writer(6, 1, 5, Returned(true, false, 6), 6);
    var other := map[6 := Landing(1, false)];
    var c1 := At(6, LATE_WRITER, second, multiset{}, other);
    var c2 := At(6, Writer(6, 0, 5, Checking, 5), second, multiset{}, other);
    var c := At(6, Writer(6, 0, 5, Returned(true, true, 6), 6), second, multiset{}, other);
    Three(b, Apply(1), c1, Refuse(0), c2, Check(0), c);
    events := HANGS + [DropLate(LATE_UPDATE), Event.Start(1, 6), Sync(1)];
    Joined(CALM, HANGS, HANGING, [DropLate(LATE_UPDATE), Event.Start(1, 6), Sync(1)], b);
    Joined(CALM, events, b, [Apply(1), Refuse(0), Check(0)], c);
    events := events + [Apply(1), Refuse(0), Check(0)];
  }

  // A process commits ledgers 6 and 7 and then publishes ledger 6, as one may that was queued while
  // the process was writing and is taken up when it has stopped.
  lemma PublishedTooLate() returns (events: seq<Event>)
    ensures Start(NO_ROWS, CALM) && Exec(NO_ROWS, CALM, events).Some? && |events| > 0
    ensures var last := |events| - 1;
      && KnownAfter(NO_ROWS, CALM, events, last, 0) == Some(7)
      && KnownAfter(NO_ROWS, CALM, events, |events|, 0) == Some(6)
  {
    var six := [Event.Start(0, 6), Sync(0), Apply(0)];
    var seven := [Event.Start(0, 7), Sync(0), Apply(0)];
    CommitsOne(CALM, 6);
    var a := AfterCommit(CALM, 6);
    CommitsOne(a, 7);
    var b := AfterCommit(a, 7);
    Joined(CALM, six, a, seven, b);
    events := six + seven + [Event.Publish(0, 6)];
    Runs.ExecOne(Try(NO_ROWS), CALM, six + seven, b, Event.Publish(0, 6));
    assert events[..|events| - 1] == six + seven && events[..|events|] == events;
  }

  // The first process writes a ledger on its own.
  function AfterCommit(s: System, ledger: nat): System
    requires |s.writers| > 0
  {
    s.(latest := ledger,
       writers := s.writers[0 := Writer(ledger, s.tickets, s.latest, Returned(true, false, ledger), ledger)],
       gained := s.gained[ledger := Landing(s.tickets, false)],
       tickets := s.tickets + 1)
  }

  lemma CommitsOne(s: System, ledger: nat)
    requires |s.writers| > 0 && (s.writers[0].phase.Idle? || s.writers[0].phase.Returned?) && ledger == s.latest + 1
    ensures Exec(NO_ROWS, s, [Event.Start(0, ledger), Sync(0), Apply(0)]) == Some(AfterCommit(s, ledger))
  {
    var a := Next(NO_ROWS, s, Event.Start(0, ledger));
    var b := Next(NO_ROWS, a, Sync(0));
    var c := Next(NO_ROWS, b, Apply(0));
    assert c.writers == AfterCommit(s, ledger).writers;
    Three(s, Event.Start(0, ledger), a, Sync(0), b, Apply(0), c);
  }
}
