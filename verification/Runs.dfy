// Runs of a system of steps: events happen one after another, each when it can.
module Runs {
  import opened Wrappers

  // The state after the events, if each of them could happen.
  function Exec<S, E>(step: (S, E) -> Option<S>, s: S, events: seq<E>): Option<S> {
    if events == [] then Some(s)
    else
      match Exec(step, s, events[..|events| - 1])
      case None => None
      case Some(t) => step(t, events[|events| - 1])
  }

  lemma ExecOne<S, E>(step: (S, E) -> Option<S>, s: S, before: seq<E>, t: S, e: E)
    requires Exec(step, s, before) == Some(t)
    ensures Exec(step, s, before + [e]) == step(t, e)
  {
    assert (before + [e])[..|before|] == before;
  }

  lemma {:induction false} ExecConcat<S, E>(step: (S, E) -> Option<S>, s: S, a: seq<E>, t: S, b: seq<E>)
    requires Exec(step, s, a) == Some(t)
    ensures Exec(step, s, a + b) == Exec(step, t, b)
  {
    if b == [] {
      assert a + b == a;
    } else {
      var last := |b| - 1;
      ExecConcat(step, s, a, t, b[..last]);
      assert (a + b)[..|a + b| - 1] == a + b[..last];
    }
  }

  lemma ExecTwo<S, E>(step: (S, E) -> Option<S>, s: S, e: E, t: S, f: E)
    requires step(s, e) == Some(t)
    ensures Exec(step, s, [e, f]) == step(t, f)
  {
    ExecOne(step, s, [], s, e);
    assert [] + [e] == [e];
    ExecOne(step, s, [e], t, f);
    assert [e] + [f] == [e, f];
  }

  lemma ExecThree<S, E>(step: (S, E) -> Option<S>, s: S, e: E, t: S, f: E, u: S, g: E)
    requires step(s, e) == Some(t) && step(t, f) == Some(u)
    ensures Exec(step, s, [e, f, g]) == step(u, g)
  {
    ExecTwo(step, s, e, t, f);
    ExecOne(step, s, [e, f], u, g);
    assert [e, f] + [g] == [e, f, g];
  }
}
