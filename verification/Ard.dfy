/** The chooser of update sources (ard/src/deps.c).

  Every unresolved dependency may be served by several sources. Dependencies are taken
  in order; each asks for its first source, and all earlier ones that can be served by
  it move over to it. The counters say how many are served by each source.
*/
module Ard {

  const MAX_SOURCES: nat := 3
  const RESOLVED: int := -1

  // chosen is the extra slot behind the sources.
  datatype Entry = Entry(count: int, srcs: seq<int>, chosen: int)

  type Dependency = d: Entry | |d.srcs| == MAX_SOURCES && RESOLVED <= d.count <= MAX_SOURCES
    witness Entry(RESOLVED, [-1, -1, -1], -1)

  predicate Uses(d: Dependency, src: int) { d.count != RESOLVED && exists i | 0 <= i < d.count :: d.srcs[i] == src }

  // What the chooser needs of an unresolved dependency: its first source exists.
  ghost predicate Choosable(d: Dependency, sources: nat) {
    d.count != RESOLVED ==> 1 <= d.count && 0 <= d.srcs[0] < sources
  }

  method MightUse(d: Dependency, src: int) returns (r: bool)
    ensures r == Uses(d, src)
  {
    if d.count == RESOLVED {
      return false;
    }
    for i := 0 to d.count
      invariant forall j | 0 <= j < i :: d.srcs[j] != src
    {
      if d.srcs[i] == src {
        return true;
      }
    }
    return false;
  }

  // The first unresolved dependency without any source, if there is one.
  method CheckSources(deps: array<Dependency>) returns (missing: int)
    ensures -1 <= missing < deps.Length
    ensures missing == -1 ==>
      forall k | 0 <= k < deps.Length && deps[k].count != RESOLVED ::
        exists i | 0 <= i < deps[k].count :: 0 <= deps[k].srcs[i]
    ensures missing != -1 ==>
      && deps[missing].count != RESOLVED && (forall i | 0 <= i < deps[missing].count :: deps[missing].srcs[i] < 0)
      && forall k | 0 <= k < missing && deps[k].count != RESOLVED ::
           exists i | 0 <= i < deps[k].count :: 0 <= deps[k].srcs[i]
  {
    for k := 0 to deps.Length
      invariant forall j | 0 <= j < k && deps[j].count != RESOLVED ::
        exists i | 0 <= i < deps[j].count :: 0 <= deps[j].srcs[i]
    {
      if deps[k].count == RESOLVED {
        continue;
      }
      var solvable := false;
      var i := 0;
      while !solvable && i < deps[k].count
        invariant 0 <= i
        invariant if solvable then exists j | 0 <= j < deps[k].count :: 0 <= deps[k].srcs[j]
                  else forall j | 0 <= j < i && j < deps[k].count :: deps[k].srcs[j] < 0
      {
        if 0 <= deps[k].srcs[i] {
          solvable := true;
        }
        i := i + 1;
      }
      if !solvable {
        return k;
      }
    }
    return -1;
  }

  // ----- What is chosen -----

  // The source dependency x ends up with after the first n were taken: that of the last one
  // taken, from x itself on, whose first source x can use.
  function Chosen(deps: seq<Dependency>, x: nat, n: nat): int
    requires x < n <= |deps| && deps[x].count != RESOLVED
  {
    if n == x + 1 then deps[x].srcs[0]
    else if deps[n - 1].count != RESOLVED && Uses(deps[x], deps[n - 1].srcs[0]) then deps[n - 1].srcs[0]
    else Chosen(deps, x, n - 1)
  }

  // The number of unresolved dependencies among the first n that are assigned to s.
  function Assigned(deps: seq<Dependency>, n: nat, s: int): nat
    requires n <= |deps|
  {
    if n == 0 then 0
    else Assigned(deps, n - 1, s) + if deps[n - 1].count != RESOLVED && deps[n - 1].chosen == s then 1 else 0
  }

  lemma {:induction false} AssignedFrame(a: seq<Dependency>, b: seq<Dependency>, n: nat, s: int)
    requires n <= |a| && n <= |b| && a[..n] == b[..n]
    ensures Assigned(a, n, s) == Assigned(b, n, s)
  {
    if n != 0 {
      assert a[n - 1] == a[..n][n - 1] == b[..n][n - 1] == b[n - 1];
      assert a[..n - 1] == a[..n][..n - 1] == b[..n][..n - 1] == b[..n - 1];
      AssignedFrame(a, b, n - 1, s);
    }
  }

  // Moving a dependency over takes one from its old source and gives one to the new one.
  lemma {:induction false} AssignedMove(deps: seq<Dependency>, n: nat, x: nat, src: int, s: int)
    requires x < n <= |deps| && deps[x].count != RESOLVED
    ensures Assigned(deps[x := deps[x].(chosen := src)], n, s)
         == Assigned(deps, n, s) - (if deps[x].chosen == s then 1 else 0) + (if src == s then 1 else 0)
  {
    if x == n - 1 {
      AssignedFrame(deps[x := deps[x].(chosen := src)], deps, n - 1, s);
    } else {
      AssignedMove(deps, n - 1, x, src, s);
    }
  }

  lemma {:induction false} AssignedSome(deps: seq<Dependency>, n: nat, s: int)
    requires n <= |deps|
    ensures 0 < Assigned(deps, n, s) <==> exists k | 0 <= k < n :: deps[k].count != RESOLVED && deps[k].chosen == s
  {
    if n != 0 {
      AssignedSome(deps, n - 1, s);
    }
  }

  lemma {:induction false} ChosenIsOwn(deps: seq<Dependency>, x: nat, n: nat, sources: nat)
    requires x < n <= |deps| && deps[x].count != RESOLVED
    requires forall k | 0 <= k < |deps| :: Choosable(deps[k], sources)
    ensures Uses(deps[x], Chosen(deps, x, n)) && 0 <= Chosen(deps, x, n) < sources
  {
    if n != x + 1 {
      ChosenIsOwn(deps, x, n - 1, sources);
    }
  }

  // Of the unresolved dependencies among the first n, k is the last one, from x itself on, whose first source is one of
  // the sources of x.
  ghost predicate LastAsked(deps: seq<Dependency>, x: nat, n: nat, k: nat) {
    && x <= k < n <= |deps| && deps[x].count != -1 && deps[k].count != -1
    && deps[k].srcs[0] in deps[x].srcs[..deps[x].count]
    && forall j | k < j < n && deps[j].count != -1 :: deps[j].srcs[0] !in deps[x].srcs[..deps[x].count]
  }

  lemma {:induction false} ChosenExactly(deps: seq<Dependency>, x: nat, n: nat, k: nat)
    requires LastAsked(deps, x, n, k)
    ensures Chosen(deps, x, n) == deps[k].srcs[0]
    decreases n
  {
    if n != x + 1 && n != k + 1 {
      assert forall i | 0 <= i < deps[x].count :: deps[x].srcs[i] in deps[x].srcs[..deps[x].count];
      ChosenExactly(deps, x, n - 1, k);
    }
  }

  // There is such a dependency as soon as x has a source.
  lemma {:induction false} SomeLastAsked(deps: seq<Dependency>, x: nat, n: nat) returns (k: nat)
    requires x < n <= |deps| && 1 <= deps[x].count
    ensures LastAsked(deps, x, n, k)
    decreases n
  {
    if deps[n - 1].count != -1 && deps[n - 1].srcs[0] in deps[x].srcs[..deps[x].count] {
      k := n - 1;
    } else {
      assert deps[x].srcs[0] == deps[x].srcs[..deps[x].count][0];
      k := SomeLastAsked(deps, x, n - 1);
    }
  }

  // The dependencies after the first n were taken.
  ghost predicate Taken(before: seq<Dependency>, now: seq<Dependency>, n: nat)
    requires n <= |before| == |now|
  {
    forall k | 0 <= k < |before| ::
      now[k] == if k < n && before[k].count != RESOLVED then before[k].(chosen := Chosen(before, k, n)) else before[k]
  }

  lemma ChosenByLastAsked(before: seq<Dependency>, now: seq<Dependency>)
    requires |before| == |now| && Taken(before, now, |before|)
    ensures forall x: nat, k: nat | x < |now| && LastAsked(before, x, |before|, k) :: now[x].chosen == before[k].srcs[0]
  {
    hide Chosen;
    forall x: nat, k: nat | x < |now| && LastAsked(before, x, |before|, k) ensures now[x].chosen == before[k].srcs[0] {
      ChosenExactly(before, x, |before|, k);
    }
  }

  // While dependency n is taken, the first x earlier ones have been asked to move.
  ghost predicate Moving(before: seq<Dependency>, now: seq<Dependency>, n: nat, x: nat)
    requires x <= n < |before| == |now| && before[n].count != RESOLVED
  {
    forall k | 0 <= k < |before| ::
      now[k] ==
        if before[k].count == RESOLVED || n < k then before[k]
        else if k == n || k < x then before[k].(chosen := Chosen(before, k, n + 1))
        else before[k].(chosen := Chosen(before, k, n))
  }

  // The sources to be used, in the order of their index: every unresolved dependency is served
  // by one of its own, and no source is listed that serves none.
  method GetSources(deps: array<Dependency>, sources: nat) returns (list: seq<nat>)
    requires forall k | 0 <= k < deps.Length :: Choosable(deps[k], sources)
    modifies deps
    ensures deps.Length == |old(deps[..])| && Taken(old(deps[..]), deps[..], deps.Length)
    ensures forall i, j | 0 <= i < j < |list| :: list[i] < list[j]
    ensures forall s: nat :: s in list <==>
      s < sources && exists k | 0 <= k < deps.Length :: deps[k].count != RESOLVED && deps[k].chosen == s
    ensures forall k | 0 <= k < deps.Length && deps[k].count != RESOLVED ::
      Uses(deps[k], deps[k].chosen) && 0 <= deps[k].chosen && (deps[k].chosen as nat) in list
    ensures forall x: nat, k: nat | x < deps.Length && LastAsked(old(deps[..]), x, deps.Length, k) ::
      deps[x].chosen == old(deps[..])[k].srcs[0]
  {
    ghost var before := deps[..];
    var counters := new int[sources](_ => 0);
    for it := 0 to deps.Length
      invariant counters.Length == sources
      invariant Taken(before, deps[..], it)
      invariant forall s | 0 <= s < sources :: counters[s] == Assigned(deps[..], it, s)
    {
      hide Assigned, Uses, Chosen;
      Take(deps, it, counters, before);
    }
    list := [];
    for i := 0 to sources
      invariant forall s: nat :: s in list <==> s < i && 0 < Assigned(deps[..], deps.Length, s)
      invariant forall k, l | 0 <= k < l < |list| :: list[k] < list[l]
    {
      hide Assigned;
      assert forall k | 0 <= k < |list| :: list[k] in list;
      if 0 < counters[i] {
        list := list + [i];
      }
    }
    forall s: nat ensures s in list <==>
      s < sources && exists k | 0 <= k < deps.Length :: deps[k].count != RESOLVED && deps[k].chosen == s
    {
      AssignedSome(deps[..], deps.Length, s);
    }
    forall k | 0 <= k < deps.Length && deps[k].count != RESOLVED
      ensures Uses(deps[k], deps[k].chosen) && 0 <= deps[k].chosen && (deps[k].chosen as nat) in list
    {
      assert deps[k] == deps[..][k];
      ChosenIsOwn(before, k, deps.Length, sources);
    }
    ChosenByLastAsked(before, deps[..]);
    assert forall x | 0 <= x < deps.Length :: deps[x] == deps[..][x];
  }

  method Take(deps: array<Dependency>, it: nat, counters: array<int>, ghost before: seq<Dependency>)
    requires it < deps.Length == |before|
    requires forall k | 0 <= k < |before| :: Choosable(before[k], counters.Length)
    requires Taken(before, deps[..], it)
    requires forall s | 0 <= s < counters.Length :: counters[s] == Assigned(deps[..], it, s)
    modifies deps, counters
    ensures Taken(before, deps[..], it + 1)
    ensures forall s | 0 <= s < counters.Length :: counters[s] == Assigned(deps[..], it + 1, s)
  {
    assert deps[it] == deps[..][it];
    if deps[it].count == RESOLVED {
      return;
    }
    var src := deps[it].srcs[0];
    ghost var was := deps[..];
    counters[src] := counters[src] + 1;
    deps[it] := deps[it].(chosen := src);
    assert deps[..] == was[it := deps[it]];
    forall s | 0 <= s < counters.Length ensures counters[s] == Assigned(deps[..], it + 1, s) {
      AssignedFrame(was, deps[..], it, s);
    }
    for x := 0 to it
      invariant Moving(before, deps[..], it, x)
      invariant forall s | 0 <= s < counters.Length :: counters[s] == Assigned(deps[..], it + 1, s)
    {
      hide Assigned, Uses;
      Move(deps, it, x, src, counters, before);
    }
  }

  method Move(deps: array<Dependency>, it: nat, x: nat, src: int, counters: array<int>, ghost before: seq<Dependency>)
    requires x < it < deps.Length == |before| && before[it].count != RESOLVED && src == before[it].srcs[0]
    requires forall k | 0 <= k < |before| :: Choosable(before[k], counters.Length)
    requires Moving(before, deps[..], it, x)
    requires forall s | 0 <= s < counters.Length :: counters[s] == Assigned(deps[..], it + 1, s)
    modifies deps, counters
    ensures Moving(before, deps[..], it, x + 1)
    ensures forall s | 0 <= s < counters.Length :: counters[s] == Assigned(deps[..], it + 1, s)
  {
    hide Assigned, Uses;
    assert deps[x] == deps[..][x];
    var uses := MightUse(deps[x], src);
    UsesChosen(before[x], deps[x], src);
    if uses {
      ghost var was := deps[..];
      ChosenIsOwn(before, x, it, counters.Length);
      var previous := deps[x].chosen;
      deps[x] := deps[x].(chosen := src);
      counters[previous] := counters[previous] - 1;
      counters[src] := counters[src] + 1;
      assert deps[..] == was[x := was[x].(chosen := src)];
      forall s | 0 <= s < counters.Length ensures counters[s] == Assigned(deps[..], it + 1, s) {
        AssignedMove(was, it + 1, x, src, s);
      }
    }
  }

  lemma UsesChosen(a: Dependency, b: Dependency, src: int)
    requires a.count == b.count && a.srcs == b.srcs
    ensures Uses(a, src) == Uses(b, src) && (Uses(a, src) ==> a.count != RESOLVED)
  {
  }
}
