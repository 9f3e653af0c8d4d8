// Counting outstanding asynchronous writes (src/backend/CassandraBackend.h, the request counter
// and sync; src/backend/CassandraBackend.cpp, the write callbacks and their retries).
module Throttle {
  import opened Wrappers
  import Runs

  // A submitting thread: past the check of the limit, and then past the increment, which is
  // made after the check's lock is released.
  datatype Thread = Ready | Admitted | Counted

  // `sent` writes have been handed to the database so far, numbered from 0; those `inFlight`
  // have not succeeded yet. `attempts` counts executions, retries included.
  datatype State = State(counter: int, threads: seq<Thread>, sent: nat, inFlight: set<nat>, attempts: nat)

  datatype Event =
    | Admit(t: nat)
    | Count(t: nat)
    | Send(t: nat)
    | Retry(write: nat)
    | Finish(write: nat)

  predicate CanAdd(max: nat, s: State) {
    s.counter < max
  }

  // What sync waits for.
  predicate FinishedAll(s: State) {
    s.counter == 0
  }

  predicate Enabled(max: nat, s: State, e: Event) {
    match e
    case Admit(t) => t < |s.threads| && s.threads[t].Ready? && CanAdd(max, s)
    case Count(t) => t < |s.threads| && s.threads[t].Admitted?
    case Send(t) => t < |s.threads| && s.threads[t].Counted?
    case Retry(write) => write in s.inFlight
    case Finish(write) => write in s.inFlight
  }

  function Next(max: nat, s: State, e: Event): State
    requires Enabled(max, s, e)
  {
    match e
    case Admit(t) => s.(threads := s.threads[t := Admitted])
    case Count(t) => s.(threads := s.threads[t := Counted], counter := s.counter + 1)
    case Send(t) =>
      s.(threads := s.threads[t := Ready], sent := s.sent + 1, inFlight := s.inFlight + {s.sent}, attempts := s.attempts + 1)
    case Retry(write) => s.(attempts := s.attempts + 1)
    case Finish(write) => s.(inFlight := s.inFlight - {write}, counter := s.counter - 1)
  }

  /* Accounting */

  function Num(threads: seq<Thread>, kind: Thread): (n: nat)
    ensures n <= |threads|
  {
    if threads == [] then 0
    else Num(threads[..|threads| - 1], kind) + if threads[|threads| - 1] == kind then 1 else 0
  }

  lemma {:induction false} NumUpdate(threads: seq<Thread>, t: nat, thread: Thread, kind: Thread)
    requires t < |threads|
    ensures Num(threads[t := thread], kind)
      == Num(threads, kind) - (if threads[t] == kind then 1 else 0) + (if thread == kind then 1 else 0)
  {
    var last := |threads| - 1;
    var updated := threads[t := thread];
    if t == last {
      assert updated[..last] == threads[..last];
    } else {
      NumUpdate(threads[..last], t, thread, kind);
      assert updated[..last] == threads[..last][t := thread];
    }
  }

  // The two kinds are different threads.
  lemma {:induction false} NumBoth(threads: seq<Thread>)
    ensures Num(threads, Admitted) + Num(threads, Counted) <= |threads|
  {
    if threads != [] {
      NumBoth(threads[..|threads| - 1]);
    }
  }

  // The counter is exactly the writes counted and not yet sent, and those in flight.
  ghost predicate Inv(max: nat, s: State) {
    && s.counter == Num(s.threads, Counted) + |s.inFlight|
    && s.counter + Num(s.threads, Admitted) <= max + |s.threads| - 1
    && (forall write | write in s.inFlight :: write < s.sent)
  }

  // Every step keeps the accounts, and never takes the counter below zero.
  lemma StepKeeps(max: nat, s: State, e: Event)
    requires Inv(max, s) && Enabled(max, s, e)
    ensures Inv(max, Next(max, s, e)) && Next(max, s, e).counter >= 0
    ensures |Next(max, s, e).threads| == |s.threads|
  {
    if e.Admit? || e.Count? || e.Send? {
      var thread := Next(max, s, e).threads[e.t];
      NumUpdate(s.threads, e.t, thread, Admitted);
      NumUpdate(s.threads, e.t, thread, Counted);
      if e.Admit? {
        NumBoth(s.threads[e.t := thread]);
      }
    }
    if e.Send? {
      assert |s.inFlight + {s.sent}| == |s.inFlight| + 1;
    }
  }

  /* Runs */

  function Try(max: nat): (State, Event) -> Option<State> {
    (s, e) => if Enabled(max, s, e) then Some(Next(max, s, e)) else None
  }

  function Exec(max: nat, s: State, events: seq<Event>): Option<State> {
    Runs.Exec(Try(max), s, events)
  }

  ghost predicate Start(max: nat, s: State) {
    s.counter == 0 && s.inFlight == {} && |s.threads| > 0 && (forall i | 0 <= i < |s.threads| :: s.threads[i] == Ready)
  }

  lemma {:induction false} NoneYet(threads: seq<Thread>, kind: Thread)
    requires (forall i | 0 <= i < |threads| :: threads[i] == Ready) && kind != Ready
    ensures Num(threads, kind) == 0
  {
    if threads != [] {
      NoneYet(threads[..|threads| - 1], kind);
    }
  }

  lemma {:induction false} RunKeeps(max: nat, s: State, events: seq<Event>)
    requires Start(max, s) && Exec(max, s, events).Some?
    ensures Inv(max, Exec(max, s, events).value) && |Exec(max, s, events).value.threads| == |s.threads|
  {
    if events == [] {
      NoneYet(s.threads, Admitted);
      NoneYet(s.threads, Counted);
    } else {
      RunKeeps(max, s, events[..|events| - 1]);
      StepKeeps(max, Exec(max, s, events[..|events| - 1]).value, events[|events| - 1]);
    }
  }

  // With any retries and any interleaving, sync returns exactly when every write sent has finished
  // and none that has been counted is still to be sent; and the limit is exceeded by fewer writes
  // than there are threads.
  lemma SyncMeansFinished(max: nat, s: State, events: seq<Event>)
    requires Start(max, s) && Exec(max, s, events).Some?
    ensures var t := Exec(max, s, events).value;
      && 0 <= t.counter <= max + |s.threads| - 1
      && (FinishedAll(t) <==> t.inFlight == {} && Counted !in t.threads)
  {
    RunKeeps(max, s, events);
    var t := Exec(max, s, events).value;
    SomeCounted(t.threads);
    assert |t.inFlight| == 0 ==> t.inFlight == {};
  }

  // A thread that is past the check but not yet counted is not waited for.
  lemma SyncPassesAdmitted(max: nat, threads: nat)
    requires max > 0 && threads > 0
    ensures Start(max, State(0, Idle(threads), 0, {}, 0))
    ensures var t := Exec(max, State(0, Idle(threads), 0, {}, 0), [Admit(0)]);
      t.Some? && FinishedAll(t.value) && Admitted in t.value.threads
  {
    var s := State(0, Idle(threads), 0, {}, 0);
    Runs.ExecOne(Try(max), s, [], s, Admit(0));
    assert [] + [Admit(0)] == [Admit(0)];
    assert Next(max, s, Admit(0)).threads[0] == Admitted;
  }

  lemma {:induction false} SomeCounted(threads: seq<Thread>)
    ensures Num(threads, Counted) == 0 <==> Counted !in threads
  {
    if threads != [] {
      var last := |threads| - 1;
      SomeCounted(threads[..last]);
      assert threads == threads[..last] + [threads[last]];
    }
  }

  /* The bound is exact */

  function Admits(n: nat): seq<Event> {
    seq(n, i requires 0 <= i < n => Admit(i))
  }

  function Counts(n: nat): seq<Event> {
    seq(n, i requires 0 <= i < n => Count(i))
  }

  // One thread submits `n` writes in turn while there is room.
  function Submit(n: nat): seq<Event> {
    if n == 0 then [] else Submit(n - 1) + [Admit(0), Count(0), Send(0)]
  }

  function Idle(threads: nat): seq<Thread> {
    seq(threads, _ => Ready)
  }

  lemma {:induction false} SubmitFills(max: nat, threads: nat, n: nat)
    requires n <= max && threads > 0
    ensures var t := Exec(max, State(0, Idle(threads), 0, {}, 0), Submit(n));
      t.Some? && t.value.counter == n && t.value.threads == Idle(threads)
  {
    if n > 0 {
      var s := State(0, Idle(threads), 0, {}, 0);
      SubmitFills(max, threads, n - 1);
      var before, t := Submit(n - 1), Exec(max, s, Submit(n - 1)).value;
      var u := Next(max, t, Admit(0));
      var v := Next(max, u, Count(0));
      Runs.ExecThree(Try(max), t, Admit(0), u, Count(0), v, Send(0));
      Runs.ExecConcat(Try(max), s, before, t, [Admit(0), Count(0), Send(0)]);
      assert Next(max, v, Send(0)).threads == Idle(threads);
    }
  }

  // The first `n` threads have passed the check, and the first `m` of them have been counted.
  function Passed(threads: nat, n: nat, m: nat): seq<Thread> {
    seq(threads, i => if i < m then Counted else if i < n then Admitted else Ready)
  }

  lemma {:induction false} AllPass(max: nat, s: State, n: nat)
    requires s.counter < max && s.threads == Idle(|s.threads|) && n <= |s.threads|
    ensures Exec(max, s, Admits(n)) == Some(s.(threads := Passed(|s.threads|, n, 0)))
  {
    if n == 0 {
      assert s.threads == Passed(|s.threads|, 0, 0);
    } else {
      AllPass(max, s, n - 1);
      var before := Admits(n - 1);
      var t := s.(threads := Passed(|s.threads|, n - 1, 0));
      Runs.ExecOne(Try(max), s, before, t, Admit(n - 1));
      assert t.threads[n - 1 := Admitted] == Passed(|s.threads|, n, 0);
      assert Admits(n) == before + [Admit(n - 1)];
    }
  }

  lemma OneMoreCounted(threads: nat, m: nat)
    requires 0 < m <= threads
    ensures Passed(threads, threads, m - 1)[m - 1] == Admitted
    ensures Passed(threads, threads, m - 1)[m - 1 := Counted] == Passed(threads, threads, m)
  {
  }

  lemma {:induction false} AllCount(max: nat, s: State, m: nat)
    requires s.threads == Passed(|s.threads|, |s.threads|, 0) && m <= |s.threads|
    ensures Exec(max, s, Counts(m))
      == Some(s.(threads := Passed(|s.threads|, |s.threads|, m), counter := s.counter + m))
  {
    if m > 0 {
      AllCount(max, s, m - 1);
      var before := Counts(m - 1);
      var t := s.(threads := Passed(|s.threads|, |s.threads|, m - 1), counter := s.counter + m - 1);
      Runs.ExecOne(Try(max), s, before, t, Count(m - 1));
      OneMoreCounted(|s.threads|, m);
      assert Counts(m) == before + [Count(m - 1)];
    }
  }

  // For any limit and any number of threads some run does reach the bound: all pass the check
  // below the limit, and only then are they counted.
  lemma BoundIsReached(max: nat, threads: nat) returns (events: seq<Event>)
    requires max > 0 && threads > 0
    ensures var t := Exec(max, State(0, Idle(threads), 0, {}, 0), events);
      t.Some? && t.value.counter == max + threads - 1
  {
    var s := State(0, Idle(threads), 0, {}, 0);
    SubmitFills(max, threads, max - 1);
    var t := Exec(max, s, Submit(max - 1)).value;
    AllPass(max, t, threads);
    var admits, counts := Admits(threads), Counts(threads);
    var u := t.(threads := Passed(threads, threads, 0));
    AllCount(max, u, threads);
    Runs.ExecConcat(Try(max), s, Submit(max - 1), t, admits);
    events := Submit(max - 1) + admits + counts;
    Runs.ExecConcat(Try(max), s, Submit(max - 1) + admits, u, counts);
  }
}
