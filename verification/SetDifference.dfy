// Sorting and differencing lists of token IDs, as std::sort and std::set_difference do.
module SetDifferences {
  import opened Sequences

  predicate Sorted(s: seq<nat>) {
    forall i, j | 0 <= i < j < |s| :: s[i] <= s[j]
  }

  // How many elements come before `x`.
  function Position(s: seq<nat>, x: nat): (p: nat)
    requires Sorted(s)
    ensures p <= |s|
    ensures forall i | 0 <= i < |s| :: s[i] < x <==> i < p
  {
    if s == [] || s[|s| - 1] < x then |s| else Position(s[..|s| - 1], x)
  }

  lemma InsertedAt(s: seq<nat>, p: nat, x: nat)
    requires Sorted(s) && p <= |s| && forall i | 0 <= i < |s| :: s[i] < x <==> i < p
    ensures Sorted(s[..p] + [x] + s[p..])
  {
    var r := s[..p] + [x] + s[p..];
    assert forall i | 0 <= i < |r| :: r[i] == if i < p then s[i] else if i == p then x else s[i - 1];
  }

  lemma InsertedHolds(s: seq<nat>, p: nat, x: nat)
    requires p <= |s|
    ensures multiset(s[..p] + [x] + s[p..]) == multiset(s) + multiset{x}
  {
    assert s == s[..p] + s[p..];
  }

  function Insert(s: seq<nat>, x: nat): (r: seq<nat>)
    requires Sorted(s)
    ensures Sorted(r) && multiset(r) == multiset(s) + multiset{x}
  {
    var p := Position(s, x);
    InsertedAt(s, p, x);
    InsertedHolds(s, p, x);
    s[..p] + [x] + s[p..]
  }

  function Sort(s: seq<nat>): (r: seq<nat>)
    ensures Sorted(r) && multiset(r) == multiset(s)
  {
    if s == [] then
      []
    else
      assert s == s[..|s| - 1] + [s[|s| - 1]];
      Insert(Sort(s[..|s| - 1]), s[|s| - 1])
  }

  /* One pass over two lists */

  function Difference(a: seq<nat>, b: seq<nat>): seq<nat> {
    if a == [] then []
    else if b == [] || a[0] < b[0] then [a[0]] + Difference(a[1..], b)
    else if a[0] == b[0] then Difference(a[1..], b[1..])
    else Difference(a, b[1..])
  }

  lemma Peel(s: seq<nat>)
    requires s != []
    ensures multiset(s) == multiset{s[0]} + multiset(s[1..])
  {
    assert s == [s[0]] + s[1..];
  }

  lemma NotBehind(s: seq<nat>, x: nat)
    requires Sorted(s) && (s == [] || x < s[0])
    ensures multiset(s)[x] == 0
  {
    assert x !in s;
  }

  lemma KeepsElement(a: multiset<nat>, b: multiset<nat>, x: nat)
    requires b[x] == 0
    ensures (multiset{x} + a) - b == multiset{x} + (a - b)
  {
  }

  lemma DropsBoth(a: multiset<nat>, b: multiset<nat>, x: nat)
    ensures (multiset{x} + a) - (multiset{x} + b) == a - b
  {
  }

  lemma SkipsElement(a: multiset<nat>, b: multiset<nat>, x: nat)
    requires a[x] == 0
    ensures a - (multiset{x} + b) == a - b
  {
  }

  // Of sorted lists it is their difference as multisets.
  lemma {:induction false} DifferenceIs(a: seq<nat>, b: seq<nat>)
    requires Sorted(a) && Sorted(b)
    ensures multiset(Difference(a, b)) == multiset(a) - multiset(b)
  {
    if a == [] {
    } else if b == [] || a[0] < b[0] {
      DifferenceIs(a[1..], b);
      Peel(a);
      NotBehind(b, a[0]);
      KeepsElement(multiset(a[1..]), multiset(b), a[0]);
      assert multiset(Difference(a, b)) == multiset{a[0]} + multiset(Difference(a[1..], b));
    } else if a[0] == b[0] {
      DifferenceIs(a[1..], b[1..]);
      Peel(a);
      Peel(b);
      DropsBoth(multiset(a[1..]), multiset(b[1..]), a[0]);
    } else {
      DifferenceIs(a, b[1..]);
      Peel(b);
      NotBehind(a, b[0]);
      SkipsElement(multiset(a), multiset(b[1..]), b[0]);
    }
  }

  lemma DifferenceStep(a: seq<nat>, i: nat, b: seq<nat>, j: nat)
    requires i < |a| && j <= |b|
    ensures Difference(a[i..], b[j..]) ==
      if j == |b| || a[i] < b[j] then [a[i]] + Difference(a[i + 1..], b[j..])
      else if a[i] == b[j] then Difference(a[i + 1..], b[j + 1..])
      else Difference(a[i..], b[j + 1..])
  {
    assert a[i..][1..] == a[i + 1..];
    assert j < |b| ==> b[j..][1..] == b[j + 1..];
  }

  method SetDifference(a: seq<nat>, b: seq<nat>) returns (r: seq<nat>)
    ensures r == Difference(a, b)
    ensures Sorted(a) && Sorted(b) ==> multiset(r) == multiset(a) - multiset(b)
  {
    r := [];
    var i, j := 0, 0;
    assert a[0..] == a && b[0..] == b;
    while i < |a|
      invariant i <= |a| && j <= |b|
      invariant r + Difference(a[i..], b[j..]) == Difference(a, b)
      decreases |a| - i + |b| - j
    {
      DifferenceStep(a, i, b, j);
      if j == |b| || a[i] < b[j] {
        Regroup(r, [a[i]], Difference(a[i + 1..], b[j..]));
        r := r + [a[i]];
        i := i + 1;
      } else {
        if a[i] == b[j] {
          i := i + 1;
        }
        j := j + 1;
      }
    }
    if Sorted(a) && Sorted(b) {
      DifferenceIs(a, b);
    }
  }
}
