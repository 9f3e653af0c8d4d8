// Extracting ledgers in parallel and building them in order (src/etl/ReportingETL.cpp, runETLPipeline).
module Pipeline {
  import opened Wrappers
  import Runs
  import opened ThreadSafeQueues
  import opened Digits

  // The number of extractors, the first ledger, the last one if there is one, and the queue size.
  datatype Config = Config(extractors: nat, start: nat, finish: Option<nat>, maxQueue: nat) {
    ghost predicate Valid() {
      extractors > 0 && (finish.Some? ==> start <= finish.value)
    }

    predicate Past(ledger: nat) {
      finish.Some? && ledger > finish.value
    }
  }

  datatype ExtractorPhase = Looping | Fetched | Closing | Stopped
  datatype Extractor = Extractor(current: nat, phase: ExtractorPhase)

  // The transformer pops, then looks whether the server is stopping, then builds.
  datatype TransformerPhase = Popping | Popped(ledger: nat) | Building(ledger: nat) | Ended

  // An item is a ledger, or nothing when its extractor has stopped. `aborted` says that some
  // extractor stopped for another reason than reaching the last ledger.
  datatype State = State(
    extractors: seq<Extractor>,
    queues: seq<seq<Option<nat>>>,
    current: nat,
    phase: TransformerPhase,
    built: seq<nat>,
    conflict: bool,
    stopping: bool,
    aborted: bool)

  datatype Event =
    | Extract(x: nat)
    | Quit(x: nat)
    | Push(x: nat)
    | PushEnd(x: nat)
    | Pop
    | Drop
    | Build
    | Succeed
    | Conflict
    | Leave
    | TryPop(x: nat)
    | Stop

  function Turn(c: Config, ledger: nat): nat
    requires c.extractors > 0 && ledger >= c.start
  {
    (ledger - c.start) % c.extractors
  }

  predicate Shaped(c: Config, s: State) {
    |s.extractors| == |s.queues| == c.extractors > 0 && s.current >= c.start
  }

  predicate CanPush(c: Config, s: State, x: nat) {
    x < |s.queues| && HasRoom(s.queues[x], Some(c.maxQueue))
  }

  predicate Enabled(c: Config, s: State, e: Event)
    requires Shaped(c, s)
  {
    match e
    case Extract(x) =>
      x < c.extractors && s.extractors[x].phase.Looping? && !c.Past(s.extractors[x].current) && !s.conflict && !s.stopping
    case Quit(x) => x < c.extractors && s.extractors[x].phase.Looping?
    case Push(x) => x < c.extractors && s.extractors[x].phase.Fetched? && CanPush(c, s, x)
    case PushEnd(x) => x < c.extractors && s.extractors[x].phase.Closing? && CanPush(c, s, x)
    case Pop => s.phase.Popping? && !s.conflict && s.queues[Turn(c, s.current)] != []
    case Drop => s.phase.Popped? && s.stopping
    case Build => s.phase.Popped? && !s.stopping
    case Succeed => s.phase.Building?
    case Conflict => s.phase.Building?
    case Leave => s.phase.Popping? && s.conflict
    case TryPop(x) => s.phase.Ended? && x < c.extractors && s.queues[x] != []
    case Stop => true
  }

  function SetExtractor(s: State, x: nat, extractor: Extractor): State
    requires x < |s.extractors|
  {
    s.(extractors := s.extractors[x := extractor])
  }

  function Next(c: Config, s: State, e: Event): State
    requires Shaped(c, s) && Enabled(c, s, e)
  {
    match e
    case Extract(x) => SetExtractor(s, x, Extractor(s.extractors[x].current, Fetched))
    case Quit(x) =>
      SetExtractor(s, x, Extractor(s.extractors[x].current, Closing)).(
        aborted := s.aborted || !c.Past(s.extractors[x].current))
    case Push(x) =>
      var ledger := s.extractors[x].current;
      var next := ledger + c.extractors;
      SetExtractor(s, x, Extractor(next, if c.Past(next) then Closing else Looping)).(
        queues := s.queues[x := s.queues[x] + [Some(ledger)]])
    case PushEnd(x) =>
      SetExtractor(s, x, Extractor(s.extractors[x].current, Stopped)).(queues := s.queues[x := s.queues[x] + [None]])
    case Pop =>
      var x := Turn(c, s.current);
      s.(queues := s.queues[x := s.queues[x][1..]],
         current := s.current + 1,
         phase := match s.queues[x][0] case None => Ended case Some(ledger) => Popped(ledger))
    case Drop => s.(phase := Popping)
    case Build => s.(phase := Building(s.phase.ledger))
    case Succeed => s.(phase := Popping, built := s.built + [s.phase.ledger])
    case Conflict => s.(phase := Popping, conflict := true)
    case Leave => s.(phase := Ended)
    case TryPop(x) => s.(queues := s.queues[x := s.queues[x][1..]])
    case Stop => s.(stopping := true)
  }

  function Init(c: Config): State {
    State(seq(c.extractors, x requires 0 <= x => Extractor(c.start + x, Looping)),
          seq(c.extractors, _ => []), c.start, Popping, [], false, false, false)
  }

  /* Invariant */

  // The queue holds every `step`-th ledger from `head` up to where its extractor is, and the end mark last.
  ghost predicate Feeds(c: Config, queue: seq<Option<nat>>, head: nat, x: Extractor) {
    if queue == [] then
      head == x.current && !x.phase.Stopped?
    else if queue[0].None? then
      |queue| == 1 && head == x.current && x.phase.Stopped?
    else
      queue[0].value == head && !c.Past(head) && Feeds(c, queue[1..], head + c.extractors, x)
  }

  // The first ledger not yet popped that belongs to the queue.
  function Head(c: Config, current: nat, x: nat): nat
    requires c.extractors > 0 && current >= c.start && x < c.extractors
  {
    var turn := Turn(c, current);
    if x >= turn then current + x - turn else current + c.extractors - turn + x
  }

  ghost predicate ExtractorOk(c: Config, s: State, x: Extractor) {
    && (x.phase.Fetched? ==> !c.Past(x.current))
    && ((x.phase.Closing? || x.phase.Stopped?) && !s.aborted ==> c.Past(x.current))
  }

  ghost predicate Holding(s: State) {
    s.phase.Popped? || s.phase.Building?
  }

  ghost predicate TransformerOk(c: Config, s: State) {
    && (forall i | 0 <= i < |s.built| :: s.built[i] == c.start + i && !c.Past(s.built[i]))
    && (Holding(s) ==> s.phase.ledger == s.current - 1 && !c.Past(s.phase.ledger))
    && (s.phase.Building? || (s.phase.Popped? && !s.stopping) ==> s.phase.ledger == c.start + |s.built|)
    && (s.phase.Popping? && !s.stopping && !s.conflict ==> s.current == c.start + |s.built|)
    && (s.phase.Ended? && !s.stopping && !s.conflict && !s.aborted ==>
          c.Past(c.start + |s.built|))
  }

  ghost predicate Inv(c: Config, s: State) {
    && Shaped(c, s)
    && (forall x | 0 <= x < c.extractors :: |s.queues[x]| <= c.maxQueue + 1)
    && (forall x | 0 <= x < c.extractors :: ExtractorOk(c, s, s.extractors[x]))
    && (!s.phase.Ended? ==> forall x | 0 <= x < c.extractors :: Feeds(c, s.queues[x], Head(c, s.current, x), s.extractors[x]))
    && TransformerOk(c, s)
  }

  lemma {:induction false} FeedsPush(c: Config, queue: seq<Option<nat>>, head: nat, x: Extractor, next: Extractor)
    requires Feeds(c, queue, head, x) && !x.phase.Stopped?
    requires !c.Past(x.current) && next.current == x.current + c.extractors && !next.phase.Stopped?
    ensures Feeds(c, queue + [Some(x.current)], head, next)
  {
    var all := queue + [Some(x.current)];
    if queue == [] {
      assert all[1..] == [];
    } else {
      FeedsPush(c, queue[1..], head + c.extractors, x, next);
      assert all[1..] == queue[1..] + [Some(x.current)];
    }
  }

  lemma {:induction false} FeedsEnd(c: Config, queue: seq<Option<nat>>, head: nat, x: Extractor, next: Extractor)
    requires Feeds(c, queue, head, x) && !x.phase.Stopped? && next == Extractor(x.current, Stopped)
    ensures Feeds(c, queue + [None], head, next)
  {
    var all := queue + [None];
    if queue != [] {
      FeedsEnd(c, queue[1..], head + c.extractors, x, next);
      assert all[1..] == queue[1..] + [None];
    }
  }

  // Only the extractor's position and whether it has stopped matter.
  lemma {:induction false} FeedsSame(c: Config, queue: seq<Option<nat>>, head: nat, x: Extractor, next: Extractor)
    requires Feeds(c, queue, head, x) && next.current == x.current && (next.phase.Stopped? <==> x.phase.Stopped?)
    ensures Feeds(c, queue, head, next)
  {
    if queue != [] && queue[0].Some? {
      FeedsSame(c, queue[1..], head + c.extractors, x, next);
    }
  }

  lemma TurnStep(c: Config, current: nat)
    requires c.extractors > 0 && current >= c.start
    ensures Turn(c, current + 1) == if Turn(c, current) + 1 == c.extractors then 0 else Turn(c, current) + 1
  {
    var n, d, q, r := c.extractors, current - c.start, (current - c.start) / c.extractors, (current - c.start) % c.extractors;
    DivMod(d, n);
    if r + 1 == n {
      assert (q + 1) * n == q * n + n;
      DivIs(d + 1, n, q + 1, 0);
    } else {
      DivIs(d + 1, n, q, r + 1);
    }
  }

  // Popping the queue whose turn it is moves that queue's head on, and no other.
  lemma HeadStep(c: Config, current: nat, x: nat)
    requires c.extractors > 0 && current >= c.start && x < c.extractors
    ensures Head(c, current + 1, x) == Head(c, current, x) + if x == Turn(c, current) then c.extractors else 0
    ensures Head(c, current, Turn(c, current)) == current
  {
    TurnStep(c, current);
  }

  // The item popped for a ledger is that ledger, or its extractor has stopped there.
  lemma PoppedIsNext(c: Config, s: State)
    requires Inv(c, s) && Enabled(c, s, Pop)
    ensures var x := Turn(c, s.current);
      var item := s.queues[x][0];
      item == Some(s.current) || (item == None && s.extractors[x].phase.Stopped? && s.extractors[x].current == s.current)
  {
    HeadStep(c, s.current, Turn(c, s.current));
    assert Feeds(c, s.queues[Turn(c, s.current)], Head(c, s.current, Turn(c, s.current)), s.extractors[Turn(c, s.current)]);
  }

  lemma PopKeeps(c: Config, s: State)
    requires Inv(c, s) && Enabled(c, s, Pop)
    ensures Inv(c, Next(c, s, Pop))
  {
    var t := Next(c, s, Pop);
    var turn := Turn(c, s.current);
    PoppedIsNext(c, s);
    assert ExtractorOk(c, s, s.extractors[turn]);
    assert Feeds(c, s.queues[turn], Head(c, s.current, turn), s.extractors[turn]);
    forall x | 0 <= x < c.extractors
      ensures ExtractorOk(c, t, t.extractors[x])
      ensures t.phase.Ended? || Feeds(c, t.queues[x], Head(c, t.current, x), t.extractors[x])
    {
      HeadStep(c, s.current, x);
      assert ExtractorOk(c, s, s.extractors[x]);
      assert Feeds(c, s.queues[x], Head(c, s.current, x), s.extractors[x]);
    }
  }

  lemma PushKeeps(c: Config, s: State, e: Event)
    requires Inv(c, s) && Enabled(c, s, e) && (e.Push? || e.PushEnd? || e.Extract? || e.Quit?)
    ensures Inv(c, Next(c, s, e))
  {
    var t := Next(c, s, e);
    assert ExtractorOk(c, s, s.extractors[e.x]);
    forall x | 0 <= x < c.extractors
      ensures ExtractorOk(c, t, t.extractors[x])
      ensures t.phase.Ended? || Feeds(c, t.queues[x], Head(c, t.current, x), t.extractors[x])
    {
      assert ExtractorOk(c, s, s.extractors[x]);
      if x == e.x && !s.phase.Ended? {
        var head := Head(c, s.current, x);
        assert Feeds(c, s.queues[x], head, s.extractors[x]);
        if e.Push? {
          FeedsPush(c, s.queues[x], head, s.extractors[x], t.extractors[x]);
        } else if e.PushEnd? {
          FeedsEnd(c, s.queues[x], head, s.extractors[x], t.extractors[x]);
        } else {
          FeedsSame(c, s.queues[x], head, s.extractors[x], t.extractors[x]);
        }
      }
    }
  }

  lemma StepKeeps(c: Config, s: State, e: Event)
    requires Inv(c, s) && Enabled(c, s, e)
    ensures Inv(c, Next(c, s, e))
  {
    if e.Pop? {
      PopKeeps(c, s);
    } else if e.Push? || e.PushEnd? || e.Extract? || e.Quit? {
      PushKeeps(c, s, e);
    } else {
      var t := Next(c, s, e);
      forall x | 0 <= x < c.extractors
        ensures ExtractorOk(c, t, t.extractors[x])
      {
        assert ExtractorOk(c, s, s.extractors[x]);
      }
    }
  }

  lemma InOrder(c: Config, s: State)
    requires c.Valid() && Inv(c, s)
    ensures s.built == seq(|s.built|, i => c.start + i)
    ensures c.finish.Some? ==> |s.built| <= c.finish.value - c.start + 1
    ensures Enabled(c, s, Pop) && s.queues[Turn(c, s.current)][0].Some? ==>
      s.queues[Turn(c, s.current)][0].value == s.current
  {
    if Enabled(c, s, Pop) {
      PoppedIsNext(c, s);
    }
    assert |s.built| > 0 ==> !c.Past(s.built[|s.built| - 1]);
  }

  /* Runs */

  function Try(c: Config): (State, Event) -> Option<State> {
    (s, e) => if Shaped(c, s) && Enabled(c, s, e) then Some(Next(c, s, e)) else None
  }

  function Exec(c: Config, s: State, events: seq<Event>): Option<State> {
    Runs.Exec(Try(c), s, events)
  }

  lemma InitKeeps(c: Config)
    requires c.Valid()
    ensures Inv(c, Init(c))
  {
    assert Turn(c, c.start) == 0;
  }

  lemma {:induction false} RunKeeps(c: Config, events: seq<Event>)
    requires c.Valid() && Exec(c, Init(c), events).Some?
    ensures Inv(c, Exec(c, Init(c), events).value)
  {
    if events == [] {
      InitKeeps(c);
    } else {
      RunKeeps(c, events[..|events| - 1]);
      StepKeeps(c, Exec(c, Init(c), events[..|events| - 1]).value, events[|events| - 1]);
    }
  }

  // However the threads interleave, the ledgers built are start, start + 1, ... without gap or
  // repetition, none is past the last one, and the next item popped is the next ledger or an end mark.
  lemma BuildsInOrder(c: Config, events: seq<Event>)
    requires c.Valid() && Exec(c, Init(c), events).Some?
    ensures var s := Exec(c, Init(c), events).value;
      && Shaped(c, s)
      && s.built == seq(|s.built|, i => c.start + i)
      && (c.finish.Some? ==> |s.built| <= c.finish.value - c.start + 1)
      && (Enabled(c, s, Pop) && s.queues[Turn(c, s.current)][0].Some? ==> s.queues[Turn(c, s.current)][0].value == s.current)
      && forall x | 0 <= x < c.extractors :: |s.queues[x]| <= c.maxQueue + 1
  {
    RunKeeps(c, events);
    InOrder(c, Exec(c, Init(c), events).value);
  }

  // With a last ledger, and no conflict, stop or failed fetch, exactly [start, finish] has been
  // built when the transformer ends.
  lemma BuildsExactly(c: Config, events: seq<Event>)
    requires c.Valid() && Exec(c, Init(c), events).Some? && c.finish.Some?
    requires var s := Exec(c, Init(c), events).value; s.phase.Ended? && !s.conflict && !s.stopping && !s.aborted
    ensures Exec(c, Init(c), events).value.built == seq(c.finish.value - c.start + 1, i => c.start + i)
  {
    RunKeeps(c, events);
    BuildsInOrder(c, events);
  }

  /* Some run does end so, with any number of extractors */

  // `n` ledgers have been built, each as soon as it was fetched.
  function Progress(c: Config, n: nat): State
    requires c.extractors > 0
  {
    State(seq(c.extractors, x requires 0 <= x < c.extractors =>
            var next := Head(c, c.start + n, x);
            Extractor(next, if x < n && c.Past(next) then Closing else Looping)),
          seq(c.extractors, _ => []), c.start + n, Popping, seq(n, i => c.start + i), false, false, false)
  }

  function Round(c: Config, n: nat): seq<Event>
    requires c.extractors > 0
  {
    var x := Turn(c, c.start + n);
    [Extract(x), Push(x)] + [Pop, Build, Succeed]
  }

  function Rounds(c: Config, n: nat): seq<Event>
    requires c.extractors > 0
  {
    if n == 0 then [] else Rounds(c, n - 1) + Round(c, n - 1)
  }

  lemma TurnIsEarly(c: Config, n: nat)
    requires c.extractors > 0
    ensures Turn(c, c.start + n) <= n && (n < c.extractors ==> Turn(c, c.start + n) == n)
  {
    DivMod(n, c.extractors);
    if n < c.extractors {
      DivIs(n, c.extractors, 0, n);
    }
  }

  lemma AfterRound(c: Config, n: nat, t: State)
    requires c.Valid() && !c.Past(c.start + n)
    requires var x, ledger := Turn(c, c.start + n), c.start + n;
      var next := ledger + c.extractors;
      && |Progress(c, n).extractors| == c.extractors
      && t == SetExtractor(Progress(c, n), x, Extractor(next, if c.Past(next) then Closing else Looping)).(
           current := ledger + 1, built := Progress(c, n).built + [ledger])
    ensures t == Progress(c, n + 1)
  {
    TurnIsEarly(c, n);
    forall x: nat | x < c.extractors ensures t.extractors[x] == Progress(c, n + 1).extractors[x] {
      HeadStep(c, c.start + n, x);
    }
    assert t.extractors == Progress(c, n + 1).extractors;
    assert t.built == Progress(c, n + 1).built;
  }

  // The extractor whose turn it is is at the next ledger.
  lemma AtTurn(c: Config, n: nat)
    requires c.Valid()
    ensures var s, x := Progress(c, n), Turn(c, c.start + n);
      && s.extractors[x].current == c.start + n && s.queues[x] == [] && Shaped(c, s)
      && (if c.Past(c.start + n) then s.extractors[x].phase.Closing? || s.extractors[x].phase.Looping?
          else s.extractors[x].phase.Looping?)
  {
    HeadStep(c, c.start + n, Turn(c, c.start + n));
  }

  // The next ledger has been fetched and waits in its queue.
  function Waiting(c: Config, n: nat): State
    requires c.Valid()
  {
    var s, x, ledger := Progress(c, n), Turn(c, c.start + n), c.start + n;
    var next := ledger + c.extractors;
    SetExtractor(s, x, Extractor(next, if c.Past(next) then Closing else Looping)).(queues := s.queues[x := [Some(ledger)]])
  }

  lemma FetchesNext(c: Config, n: nat)
    requires c.Valid() && !c.Past(c.start + n)
    ensures var x := Turn(c, c.start + n); Exec(c, Progress(c, n), [Extract(x), Push(x)]) == Some(Waiting(c, n))
  {
    var s, x := Progress(c, n), Turn(c, c.start + n);
    AtTurn(c, n);
    var a := Next(c, s, Extract(x));
    assert a.extractors[x] == Extractor(c.start + n, Fetched);
    Runs.ExecTwo(Try(c), s, Extract(x), a, Push(x));
    assert s.queues[x] + [Some(c.start + n)] == [Some(c.start + n)];
    assert Next(c, a, Push(x)).extractors == Waiting(c, n).extractors;
  }

  lemma BuildsNext(c: Config, n: nat)
    requires c.Valid() && !c.Past(c.start + n)
    ensures Exec(c, Waiting(c, n), [Pop, Build, Succeed]) == Some(Progress(c, n + 1))
  {
    var b, x := Waiting(c, n), Turn(c, c.start + n);
    AtTurn(c, n);
    assert b.queues[x] == [Some(c.start + n)];
    var d := Next(c, b, Pop);
    assert [Some(c.start + n)][1..] == [];
    assert d.queues == Progress(c, n).queues;
    var e := Next(c, d, Build);
    Runs.ExecThree(Try(c), b, Pop, d, Build, e, Succeed);
    AfterRound(c, n, Next(c, e, Succeed));
  }

  lemma OneRound(c: Config, n: nat)
    requires c.Valid() && !c.Past(c.start + n)
    ensures Exec(c, Progress(c, n), Round(c, n)) == Some(Progress(c, n + 1))
  {
    var x := Turn(c, c.start + n);
    FetchesNext(c, n);
    BuildsNext(c, n);
    Runs.ExecConcat(Try(c), Progress(c, n), [Extract(x), Push(x)], Waiting(c, n), [Pop, Build, Succeed]);
  }

  lemma {:induction false} AllRounds(c: Config, n: nat)
    requires c.Valid() && (n > 0 ==> !c.Past(c.start + n - 1))
    ensures Exec(c, Init(c), Rounds(c, n)) == Some(Progress(c, n))
  {
    if n == 0 {
      FirstHeads(c);
    } else {
      AllRounds(c, n - 1);
      OneRound(c, n - 1);
      Runs.ExecConcat(Try(c), Init(c), Rounds(c, n - 1), Progress(c, n - 1), Round(c, n - 1));
    }
  }

  lemma FirstHeads(c: Config)
    requires c.Valid()
    ensures Init(c) == Progress(c, 0)
  {
    TurnIsEarly(c, 0);
    assert Init(c).extractors == Progress(c, 0).extractors;
  }

  // After the last ledger the extractor whose turn it is stops, and the transformer ends.
  lemma Closes(c: Config, n: nat) returns (events: seq<Event>)
    requires c.Valid() && c.Past(c.start + n)
    ensures var end := Exec(c, Progress(c, n), events);
      end.Some? && end.value.phase.Ended? && !end.value.conflict && !end.value.stopping && !end.value.aborted
  {
    var s, x := Progress(c, n), Turn(c, c.start + n);
    AtTurn(c, n);
    if s.extractors[x].phase.Looping? {
      var closing := Next(c, s, Quit(x));
      EndsAfter(c, closing, x);
      Runs.ExecOne(Try(c), s, [], s, Quit(x));
      assert [] + [Quit(x)] == [Quit(x)];
      Runs.ExecConcat(Try(c), s, [Quit(x)], closing, [PushEnd(x), Pop]);
      events := [Quit(x)] + [PushEnd(x), Pop];
    } else {
      EndsAfter(c, s, x);
      events := [PushEnd(x), Pop];
    }
  }

  lemma EndsAfter(c: Config, s: State, x: nat)
    requires Shaped(c, s) && x == Turn(c, s.current) && s.extractors[x].phase.Closing? && s.queues[x] == []
    requires s.phase.Popping? && !s.conflict && !s.stopping && !s.aborted
    ensures var end := Exec(c, s, [PushEnd(x), Pop]);
      end.Some? && end.value.phase.Ended? && !end.value.conflict && !end.value.stopping && !end.value.aborted
  {
    var t := Next(c, s, PushEnd(x));
    assert t.queues[x] == [None];
    assert Enabled(c, t, Pop) && Next(c, t, Pop).phase.Ended?;
    Runs.ExecTwo(Try(c), s, PushEnd(x), t, Pop);
  }

  lemma SomeRunEnds(c: Config) returns (events: seq<Event>)
    requires c.Valid() && c.finish.Some?
    ensures Exec(c, Init(c), events).Some?
    ensures var s := Exec(c, Init(c), events).value; s.phase.Ended? && !s.conflict && !s.stopping && !s.aborted
  {
    var n := c.finish.value - c.start + 1;
    AllRounds(c, n);
    var last := Closes(c, n);
    Runs.ExecConcat(Try(c), Init(c), Rounds(c, n), Progress(c, n), last);
    events := Rounds(c, n) + last;
  }

  /* The queue bound is exact */

  // One extractor runs ahead while nothing is popped.
  function RunAhead(n: nat): seq<Event> {
    if n == 0 then [] else RunAhead(n - 1) + [Extract(0), Push(0)]
  }

  // Nothing but its own queue's size holds the first extractor up, `n` ledgers on.
  ghost predicate Ahead(c: Config, s: State, n: nat) {
    && Inv(c, s) && |s.queues[0]| == n && !s.conflict && !s.stopping
    && var current := c.start + n * c.extractors;
    s.extractors[0] == Extractor(current, if n > 0 && c.Past(current) then Closing else Looping)
  }

  lemma OneAhead(c: Config, s: State, n: nat)
    requires Ahead(c, s, n) && n <= c.maxQueue && !c.Past(c.start + n * c.extractors)
    ensures Enabled(c, s, Extract(0)) && Shaped(c, Next(c, s, Extract(0))) && Enabled(c, Next(c, s, Extract(0)), Push(0))
    ensures Ahead(c, Next(c, Next(c, s, Extract(0)), Push(0)), n + 1)
  {
    StepKeeps(c, s, Extract(0));
    StepKeeps(c, Next(c, s, Extract(0)), Push(0));
    assert (n + 1) * c.extractors == n * c.extractors + c.extractors;
  }

  lemma {:induction false} RunsAhead(c: Config, n: nat)
    requires c.Valid() && n <= c.maxQueue + 1 && (n > 0 ==> !c.Past(c.start + (n - 1) * c.extractors))
    ensures Exec(c, Init(c), RunAhead(n)).Some? && Ahead(c, Exec(c, Init(c), RunAhead(n)).value, n)
  {
    if n == 0 {
      InitKeeps(c);
    } else {
      if n > 1 {
        assert (n - 1) * c.extractors == (n - 2) * c.extractors + c.extractors;
      }
      RunsAhead(c, n - 1);
      var t := Exec(c, Init(c), RunAhead(n - 1)).value;
      OneAhead(c, t, n - 1);
      Runs.ExecTwo(Try(c), t, Extract(0), Next(c, t, Extract(0)), Push(0));
      Runs.ExecConcat(Try(c), Init(c), RunAhead(n - 1), t, [Extract(0), Push(0)]);
    }
  }

  // At some moment the queue holds one element more than its maximum.
  ghost predicate Overfills(c: Config, events: seq<Event>, x: nat) {
    && Exec(c, Init(c), events).Some?
    && var s := Exec(c, Init(c), events).value;
    x < |s.queues| && |s.queues[x]| == c.maxQueue + 1
  }

  // Some extractor has as many ledgers as a queue is meant to hold.
  predicate LongEnough(c: Config) {
    c.maxQueue == 0 || !c.Past(c.start + (c.maxQueue - 1) * c.extractors)
  }

  lemma SomeRunOverfills(c: Config) returns (events: seq<Event>)
    requires c.Valid() && LongEnough(c)
    ensures Overfills(c, events, 0)
  {
    var m := c.maxQueue;
    if !c.Past(c.start + m * c.extractors) {
      events := RunAhead(m + 1);
      RunsAhead(c, m + 1);
    } else {
      RunsAhead(c, m);
      var t := Exec(c, Init(c), RunAhead(m)).value;
      events := RunAhead(m) + [PushEnd(0)];
      Runs.ExecOne(Try(c), Init(c), RunAhead(m), t, PushEnd(0));
    }
  }

  // An extractor that has pushed `p` ledgers stands after them, and its queue holds no more than
  // those and the end mark.
  ghost predicate HasPushed(c: Config, s: State, x: nat, p: nat)
    requires Shaped(c, s) && x < c.extractors
  {
    && s.extractors[x].current == c.start + x + p * c.extractors
    && |s.queues[x]| <= p + (if s.extractors[x].phase.Stopped? then 1 else 0)
    && (p > 0 ==> !c.Past(c.start + x + (p - 1) * c.extractors))
  }

  lemma PushedStep(c: Config, s: State, e: Event, x: nat, p: nat) returns (p': nat)
    requires Inv(c, s) && Enabled(c, s, e) && x < c.extractors && HasPushed(c, s, x, p)
    ensures Shaped(c, Next(c, s, e)) && HasPushed(c, Next(c, s, e), x, p')
  {
    p' := p;
    if e == Push(x) {
      assert ExtractorOk(c, s, s.extractors[x]);
      assert (p + 1) * c.extractors == p * c.extractors + c.extractors;
      p' := p + 1;
    }
  }

  lemma {:induction false} PushedSoFar(c: Config, events: seq<Event>, x: nat) returns (p: nat)
    requires c.Valid() && Exec(c, Init(c), events).Some? && x < c.extractors
    ensures var s := Exec(c, Init(c), events).value; Shaped(c, s) && HasPushed(c, s, x, p)
  {
    if events == [] {
      p := 0;
    } else {
      var before := events[..|events| - 1];
      p := PushedSoFar(c, before, x);
      RunKeeps(c, before);
      p := PushedStep(c, Exec(c, Init(c), before).value, events[|events| - 1], x, p);
    }
  }

  lemma OverfillsNeedsLedgers(c: Config, events: seq<Event>, x: nat)
    requires c.Valid() && Overfills(c, events, x)
    ensures LongEnough(c)
  {
    RunKeeps(c, events);
    var p := PushedSoFar(c, events, x);
    if c.maxQueue > 0 {
      FewerSteps(c.maxQueue - 1, p - 1, c.extractors);
    }
  }

  lemma FewerSteps(a: nat, b: nat, n: nat)
    requires a <= b
    ensures a * n <= b * n
  {
  }

  // Over a range of any length, or without end: some run overfills a queue if and only if some
  // extractor has as many ledgers as the maximum, as the end mark is pushed like any other element.
  lemma QueueBoundIsReachedIff(c: Config)
    requires c.Valid()
    ensures LongEnough(c) <==> exists events: seq<Event>, x: nat :: Overfills(c, events, x)
  {
    if LongEnough(c) {
      var events := SomeRunOverfills(c);
    } else if events: seq<Event>, x: nat :| Overfills(c, events, x) {
      OverfillsNeedsLedgers(c, events, x);
    }
  }
}
