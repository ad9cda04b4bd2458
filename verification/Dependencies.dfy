/**
  Ordering libraries by their dependencies in rounds: each round appends all
  pending libraries whose dependencies are already in place, until none is
  pending.
 */
module Dependencies {
  import opened Prelude

  datatype Library = Library(name: string)

  type Links = map<Library, seq<Library>>

  // ----- The rounds -----

  /** All dependencies are in place. */
  predicate CanLoad(links: Links, m: Library, current: seq<Library>) {
    m in links && forall d :: d in links[m] ==> d in current
  }

  function Loadable(links: Links, pending: seq<Library>, current: seq<Library>): seq<Library> {
    if pending == [] then []
    else
      var m, before := pending[|pending| - 1], Loadable(links, pending[..|pending| - 1], current);
      if CanLoad(links, m, current) then before + [m] else before
  }

  function Without(pending: seq<Library>, loaded: seq<Library>): seq<Library> {
    if pending == [] then []
    else
      var m, before := pending[|pending| - 1], Without(pending[..|pending| - 1], loaded);
      if m in loaded then before else before + [m]
  }

  lemma {:induction false} LoadableMembers(links: Links, pending: seq<Library>, current: seq<Library>)
    ensures forall m :: m in Loadable(links, pending, current) <==> m in pending && CanLoad(links, m, current)
    ensures NoDup(pending) ==> NoDup(Loadable(links, pending, current))
  {
    if pending != [] {
      var init, last := pending[..|pending| - 1], pending[|pending| - 1];
      LoadableMembers(links, init, current);
      assert forall m :: m in pending <==> m in init || m == last by {
        assert pending == init + [last];
      }
      assert NoDup(pending) ==> last !in init;
    }
  }

  lemma {:induction false} WithoutMembers(pending: seq<Library>, loaded: seq<Library>)
    ensures forall m :: m in Without(pending, loaded) <==> m in pending && m !in loaded
    ensures NoDup(pending) ==> NoDup(Without(pending, loaded))
    ensures |Without(pending, loaded)| <= |pending|
    ensures (exists m :: m in pending && m in loaded) ==> |Without(pending, loaded)| < |pending|
  {
    if pending != [] {
      var init, last := pending[..|pending| - 1], pending[|pending| - 1];
      WithoutMembers(init, loaded);
      assert forall m :: m in pending <==> m in init || m == last by {
        assert pending == init + [last];
      }
      assert NoDup(pending) ==> last !in init;
    }
  }

  /** A round goes through the pending libraries in their order, and leaves the others in theirs. */
  lemma {:induction false} RoundsKeepOrder(links: Links, a: seq<Library>, b: seq<Library>, current: seq<Library>)
    ensures Loadable(links, a + b, current) == Loadable(links, a, current) + Loadable(links, b, current)
    ensures Without(a + b, current) == Without(a, current) + Without(b, current)
  {
    if b == [] {
      assert a + b == a;
    } else {
      assert (a + b)[..|a + b| - 1] == a + b[..|b| - 1];
      RoundsKeepOrder(links, a, b[..|b| - 1], current);
    }
  }

  /** The libraries in loading order; None if a round loads nothing while libraries are pending. */
  function Order(links: Links, pending: seq<Library>, current: seq<Library>): Option<seq<Library>>
    decreases |pending|
  {
    if pending == [] then Some([])
    else
      var loaded := Loadable(links, pending, current);
      if loaded == [] then None
      else
        RoundShrinks(links, pending, current);
        match Order(links, Without(pending, loaded), current + loaded)
        case None => None
        case Some(rest) => Some(loaded + rest)
  }

  lemma RoundShrinks(links: Links, pending: seq<Library>, current: seq<Library>)
    requires Loadable(links, pending, current) != []
    ensures |Without(pending, Loadable(links, pending, current))| < |pending|
  {
    var loaded := Loadable(links, pending, current);
    LoadableMembers(links, pending, current);
    WithoutMembers(pending, loaded);
    assert loaded[0] in loaded;
  }

  // ----- Cycles -----

  ghost predicate DependsOn(links: Links, m: Library, d: Library) {
    m in links && d in links[m]
  }

  ghost predicate StepAt(links: Links, s: seq<Library>, i: nat)
    requires i + 1 < |s|
  {
    DependsOn(links, s[i], s[i + 1])
  }

  /** Each library of the walk depends on the next one. */
  ghost predicate Walk(links: Links, s: seq<Library>) {
    forall i: nat :: i + 1 < |s| ==> StepAt(links, s, i)
  }

  ghost predicate Cycle(links: Links, s: seq<Library>) {
    Walk(links, s) && |s| > 1 && s[0] == s[|s| - 1]
  }

  ghost predicate Acyclic(links: Links) {
    forall s :: !Cycle(links, s)
  }

  ghost predicate Closed(links: Links) {
    forall m, d :: DependsOn(links, m, d) ==> d in links
  }

  // ----- Some pending library can always be loaded -----

  /** A dependency of `m` is pending itself. */
  ghost predicate Blocked(links: Links, m: Library, pending: seq<Library>) {
    exists d :: DependsOn(links, m, d) && d in pending
  }

  /** If every pending library is blocked, there is a walk of any length through them. */
  lemma {:induction false} StuckWalk(links: Links, pending: seq<Library>, n: nat) returns (s: seq<Library>)
    requires pending != [] && forall m :: m in pending ==> Blocked(links, m, pending)
    ensures |s| == n + 1 && Walk(links, s) && forall m :: m in s ==> m in pending
    decreases n
  {
    if n == 0 {
      s := [pending[0]];
    } else {
      var t := StuckWalk(links, pending, n - 1);
      var last := t[n - 1];
      assert last in t && Blocked(links, last, pending);
      var d :| DependsOn(links, last, d) && d in pending;
      s := t + [d];
      WalkExtends(links, t, d);
    }
  }

  lemma WalkExtends(links: Links, t: seq<Library>, d: Library)
    requires t != [] && Walk(links, t) && DependsOn(links, t[|t| - 1], d)
    ensures Walk(links, t + [d])
  {
    var s := t + [d];
    forall i: nat | i + 1 < |s| ensures StepAt(links, s, i) {
      if i + 1 < |t| {
        assert StepAt(links, t, i);
      }
    }
  }

  lemma WalkPart(links: Links, s: seq<Library>, i: nat, j: nat)
    requires Walk(links, s) && i <= j <= |s|
    ensures Walk(links, s[i..j])
  {
    forall k: nat | k + 1 < j - i ensures StepAt(links, s[i..j], k) {
      assert StepAt(links, s, i + k);
    }
  }

  /** More libraries than there are pending ones must repeat. */
  lemma LongWalkRepeats(s: seq<Library>, pending: seq<Library>)
    requires |s| > |pending| && forall m :: m in s ==> m in pending
    ensures !NoDup(s)
  {
    if NoDup(s) {
      NoDupCardinality(s);
      SubsetCardinality(ToSet(s), ToSet(pending));
      AtMost(pending);
    }
  }

  lemma {:induction false} AtMost(s: seq<Library>)
    ensures |ToSet(s)| <= |s|
  {
    if s != [] {
      var init, last := s[..|s| - 1], s[|s| - 1];
      AtMost(init);
      assert s == init + [last];
      assert ToSet(s) == ToSet(init) + {last};
    }
  }

  /** If every pending library is blocked, there is a cycle. */
  lemma BlockedMeansCycle(links: Links, pending: seq<Library>) returns (c: seq<Library>)
    requires pending != [] && forall m :: m in pending ==> Blocked(links, m, pending)
    ensures Cycle(links, c)
  {
    var s := StuckWalk(links, pending, |pending|);
    LongWalkRepeats(s, pending);
    var i, j :| 0 <= i < j < |s| && s[i] == s[j];
    WalkPart(links, s, i, j + 1);
    c := s[i..j + 1];
  }

  /** Every library is either in place or pending, and pending ones are known. */
  ghost predicate Split(links: Links, pending: seq<Library>, current: seq<Library>) {
    && NoDup(pending)
    && forall m :: m in links <==> m in pending || m in current
  }

  /** With closed, acyclic links every round loads something. */
  lemma RoundLoads(links: Links, pending: seq<Library>, current: seq<Library>)
    requires Closed(links) && Acyclic(links) && Split(links, pending, current) && pending != []
    ensures Loadable(links, pending, current) != []
  {
    if forall m :: m in pending ==> Blocked(links, m, pending) {
      var c := BlockedMeansCycle(links, pending);
    } else {
      var m :| m in pending && !Blocked(links, m, pending);
      forall d | d in links[m] ensures d in current {
        assert DependsOn(links, m, d);
      }
      LoadableMembers(links, pending, current);
      assert m in Loadable(links, pending, current);
    }
  }

  lemma RoundKeepsSplit(links: Links, pending: seq<Library>, current: seq<Library>)
    requires Split(links, pending, current)
    ensures var loaded := Loadable(links, pending, current); Split(links, Without(pending, loaded), current + loaded)
  {
    var loaded := Loadable(links, pending, current);
    LoadableMembers(links, pending, current);
    WithoutMembers(pending, loaded);
  }

  lemma {:induction false} OrderFinishes(links: Links, pending: seq<Library>, current: seq<Library>)
    requires Closed(links) && Acyclic(links) && Split(links, pending, current)
    ensures Order(links, pending, current).Some?
    decreases |pending|
  {
    if pending != [] {
      var loaded := Loadable(links, pending, current);
      RoundLoads(links, pending, current);
      RoundShrinks(links, pending, current);
      RoundKeepsSplit(links, pending, current);
      OrderFinishes(links, Without(pending, loaded), current + loaded);
    }
  }

  // ----- What the order is -----

  /** In `s` placed after `current`, everything comes after its dependencies. */
  ghost predicate DependenciesFirst(links: Links, current: seq<Library>, s: seq<Library>) {
    forall i :: 0 <= i < |s| ==> CanLoad(links, s[i], current + s[..i])
  }

  lemma {:induction false} OrderIsSound(links: Links, pending: seq<Library>, current: seq<Library>)
    requires NoDup(pending) && Order(links, pending, current).Some?
    ensures var s := Order(links, pending, current).value;
      && NoDup(s) && (forall m :: m in s <==> m in pending) && DependenciesFirst(links, current, s)
    decreases |pending|
  {
    if pending != [] {
      var loaded := Loadable(links, pending, current);
      var rest := Without(pending, loaded);
      RoundShrinks(links, pending, current);
      LoadableMembers(links, pending, current);
      WithoutMembers(pending, loaded);
      OrderIsSound(links, rest, current + loaded);
      RoundsJoin(links, current, loaded, Order(links, rest, current + loaded).value);
    }
  }

  lemma RoundsJoin(links: Links, current: seq<Library>, loaded: seq<Library>, rest: seq<Library>)
    requires NoDup(loaded) && NoDup(rest) && forall m :: m in rest ==> m !in loaded
    requires (forall m :: m in loaded ==> CanLoad(links, m, current)) && DependenciesFirst(links, current + loaded, rest)
    ensures NoDup(loaded + rest) && DependenciesFirst(links, current, loaded + rest)
  {
    var s := loaded + rest;
    forall i, j | 0 <= i < j < |s| ensures s[i] != s[j] {
      if i < |loaded| <= j {
        assert s[i] in loaded && s[j] in rest;
      }
    }
    forall i | 0 <= i < |s| ensures CanLoad(links, s[i], current + s[..i]) {
      if i < |loaded| {
        assert s[i] in loaded && CanLoad(links, s[i], current);
      } else {
        assert s[..i] == loaded + rest[..i - |loaded|];
        assert current + loaded + rest[..i - |loaded|] == current + s[..i];
        assert CanLoad(links, rest[i - |loaded|], current + loaded + rest[..i - |loaded|]);
      }
    }
  }

  /** Along a walk the position in the order falls. */
  lemma {:induction false} WalkDescends(links: Links, s: seq<Library>, c: seq<Library>, i: nat, k: nat) returns (j: nat)
    requires DependenciesFirst(links, [], s) && Walk(links, c) && i < |s| && k < |c| && c[0] == s[i]
    ensures j <= i && s[j] == c[k] && (k > 0 ==> j < i)
  {
    if k == 0 {
      j := i;
    } else {
      var h := WalkDescends(links, s, c, i, k - 1);
      assert StepAt(links, c, k - 1);
      assert CanLoad(links, s[h], [] + s[..h]);
      assert c[k] in s[..h];
      j :| 0 <= j < h && s[..h][j] == c[k];
    }
  }

  lemma OrderedIsAcyclic(links: Links, s: seq<Library>)
    requires NoDup(s) && DependenciesFirst(links, [], s) && forall m :: m in links <==> m in s
    ensures Closed(links) && Acyclic(links)
  {
    forall m, d | DependsOn(links, m, d) ensures d in links {
      var i :| 0 <= i < |s| && s[i] == m;
      assert CanLoad(links, s[i], [] + s[..i]);
      assert d in s[..i] && d in s;
    }
    forall c ensures !Cycle(links, c) {
      if Cycle(links, c) {
        assert StepAt(links, c, 0);
        var i :| 0 <= i < |s| && s[i] == c[0];
        var j := WalkDescends(links, s, c, i, |c| - 1);
      }
    }
  }

  /** The rounds end if and only if the dependencies are closed and acyclic. */
  lemma OrderFinishesIff(links: Links, libraries: seq<Library>)
    requires NoDup(libraries) && forall m :: m in links <==> m in libraries
    ensures Order(links, libraries, []).Some? <==> Closed(links) && Acyclic(links)
  {
    hide Order, Closed, Acyclic, DependenciesFirst;
    if Closed(links) && Acyclic(links) {
      OrderFinishes(links, libraries, []);
    }
    if Order(links, libraries, []).Some? {
      OrderIsSound(links, libraries, []);
      OrderedIsAcyclic(links, Order(links, libraries, []).value);
    }
  }

  // ----- Rounds without end -----

  /** What is still pending after `n` rounds, however many of them load nothing. */
  function PendingAfter(links: Links, pending: seq<Library>, current: seq<Library>, n: nat): seq<Library>
    decreases n
  {
    if n == 0 then pending
    else
      var loaded := Loadable(links, pending, current);
      PendingAfter(links, Without(pending, loaded), current + loaded, n - 1)
  }

  /** A round that loads nothing leaves everything as it was. */
  lemma EmptyRoundRepeats(links: Links, pending: seq<Library>, current: seq<Library>)
    requires Loadable(links, pending, current) == []
    ensures Without(pending, []) == pending && current + [] == current
  {
    NothingRemoved(pending);
  }

  lemma {:induction false} NothingRemoved(pending: seq<Library>)
    ensures Without(pending, []) == pending
  {
    if pending != [] {
      NothingRemoved(pending[..|pending| - 1]);
    }
  }

  /** Without an order something stays pending for any number of rounds. */
  lemma {:induction false} UnorderedNeverEnds(links: Links, pending: seq<Library>, current: seq<Library>, n: nat)
    requires Order(links, pending, current) == None
    ensures PendingAfter(links, pending, current, n) != []
    decreases n
  {
    if n > 0 {
      var loaded := Loadable(links, pending, current);
      if loaded == [] {
        EmptyRoundRepeats(links, pending, current);
        UnorderedNeverEnds(links, pending, current, n - 1);
      } else {
        UnorderedNeverEnds(links, Without(pending, loaded), current + loaded, n - 1);
      }
    }
  }

  lemma {:induction false} OrderedEnds(links: Links, pending: seq<Library>, current: seq<Library>) returns (n: nat)
    requires Order(links, pending, current).Some?
    ensures PendingAfter(links, pending, current, n) == []
    decreases |pending|
  {
    n := 0;
    if pending != [] {
      var loaded := Loadable(links, pending, current);
      RoundShrinks(links, pending, current);
      n := OrderedEnds(links, Without(pending, loaded), current + loaded);
      n := n + 1;
    }
  }

  /** After some number of rounds nothing is pending if and only if the dependencies are closed and acyclic. */
  lemma RoundsEndIff(links: Links, libraries: seq<Library>)
    requires NoDup(libraries) && forall m :: m in links <==> m in libraries
    ensures (exists n: nat :: PendingAfter(links, libraries, [], n) == []) <==> Closed(links) && Acyclic(links)
  {
    hide Order, Closed, Acyclic, PendingAfter;
    OrderFinishesIff(links, libraries);
    if Order(links, libraries, []).Some? {
      var n := OrderedEnds(links, libraries, []);
    } else {
      forall n: nat ensures PendingAfter(links, libraries, [], n) != [] {
        UnorderedNeverEnds(links, libraries, [], n);
      }
    }
  }

  /** Two libraries that need each other are pending for ever, and so is one that needs an unknown library. */
  lemma CycleNeverEnds(a: Library, b: Library, n: nat)
    requires a != b
    ensures PendingAfter(map[a := [b], b := [a]], [a, b], [], n) != []
    ensures PendingAfter(map[a := [b]], [a], [], n) != []
  {
    var round, open := map[a := [b], b := [a]], map[a := [b]];
    assert [a, b][..1] == [a] && [a][..0] == [];
    assert b in round[a] && a in round[b] && b in open[a];
    assert Loadable(round, [a], []) == [] == Loadable(round, [a, b], []) == Loadable(open, [a], []);
    UnorderedNeverEnds(round, [a, b], [], n);
    UnorderedNeverEnds(open, [a], [], n);
  }

  // ----- The algorithm -----

  method ModulesThatCanBeLoaded(links: Links, pending: seq<Library>, current: seq<Library>) returns (modules: seq<Library>)
    requires forall m :: m in pending ==> m in links
    ensures modules == Loadable(links, pending, current)
  {
    modules := [];
    for i := 0 to |pending|
      invariant modules == Loadable(links, pending[..i], current)
    {
      var m := pending[i];
      assert pending[..i + 1][..i] == pending[..i] && m in pending;
      var canBeLoaded, j := true, 0;
      while j < |links[m]|
        invariant 0 <= j <= |links[m]|
        invariant canBeLoaded <==> forall d :: d in links[m][..j] ==> d in current
      {
        if links[m][j] !in current {
          canBeLoaded := false;
          assert links[m][j] in links[m];
          break;
        }
        assert links[m][..j + 1] == links[m][..j] + [links[m][j]];
        j := j + 1;
      }
      assert canBeLoaded ==> links[m][..j] == links[m];
      if canBeLoaded {
        modules := modules + [m];
      }
    }
    assert pending[..|pending|] == pending;
  }

  /** Removing the first occurrence, as from a list. */
  function Removed(pending: seq<Library>, m: Library): seq<Library> {
    if pending == [] then []
    else if pending[0] == m then pending[1..]
    else [pending[0]] + Removed(pending[1..], m)
  }

  lemma {:induction false} RemovedIsWithout(pending: seq<Library>, m: Library)
    requires NoDup(pending)
    ensures Removed(pending, m) == Without(pending, [m])
  {
    if pending == [] {
    } else {
      WithoutFront(pending, [m]);
      if pending[0] == m {
        NotThere(pending[1..], m);
      } else {
        RemovedIsWithout(pending[1..], m);
      }
    }
  }

  lemma {:induction false} WithoutFront(pending: seq<Library>, loaded: seq<Library>)
    requires pending != []
    ensures Without(pending, loaded) == (if pending[0] in loaded then [] else [pending[0]]) + Without(pending[1..], loaded)
  {
    if |pending| == 1 {
      assert pending[..0] == pending[1..] == [];
    } else {
      var init := pending[..|pending| - 1];
      WithoutFront(init, loaded);
      assert init[1..] == pending[1..][..|pending| - 2] && init[0] == pending[0];
    }
  }

  lemma {:induction false} NotThere(pending: seq<Library>, m: Library)
    requires m !in pending
    ensures Without(pending, [m]) == pending
  {
    if pending != [] {
      var init, last := pending[..|pending| - 1], pending[|pending| - 1];
      assert last in pending;
      NotThere(init, m);
    }
  }

  lemma {:induction false} WithoutTwice(pending: seq<Library>, loaded: seq<Library>, m: Library)
    ensures Without(Without(pending, loaded), [m]) == Without(pending, loaded + [m])
  {
    if pending != [] {
      var init, last := pending[..|pending| - 1], pending[|pending| - 1];
      WithoutTwice(init, loaded, m);
      var w := Without(init, loaded);
      if last !in loaded {
        assert (w + [last])[..|w|] == w;
      }
    }
  }

  function Flatten(steps: seq<seq<Library>>): seq<Library> {
    if steps == [] then [] else Flatten(steps[..|steps| - 1]) + steps[|steps| - 1]
  }

  method DependencyOrder(links: Links, pending: seq<Library>, current: seq<Library>, steps: seq<seq<Library>>)
    returns (r: seq<seq<Library>>)
    requires Closed(links) && Acyclic(links) && Split(links, pending, current)
    ensures Order(links, pending, current).Some? && Flatten(r) == Flatten(steps) + Order(links, pending, current).value
    decreases |pending|
  {
    if |pending| == 0 {
      return steps;
    }
    OrderFinishes(links, pending, current);
    RoundKeepsSplit(links, pending, current);
    RoundShrinks(links, pending, current);
    var loadable := ModulesThatCanBeLoaded(links, pending, current);
    var step, pending', current' := LoadRound(loadable, pending, current);
    r := DependencyOrder(links, pending', current', steps + [step]);
    assert (steps + [step])[..|steps|] == steps;
  }

  method LoadRound(loadable: seq<Library>, pending: seq<Library>, current: seq<Library>)
    returns (step: seq<Library>, pending': seq<Library>, current': seq<Library>)
    requires NoDup(pending)
    ensures step == loadable && pending' == Without(pending, loadable) && current' == current + loadable
  {
    step, pending', current' := [], pending, current;
    NothingRemoved(pending);
    for i := 0 to |loadable|
      invariant step == loadable[..i] && pending' == Without(pending, loadable[..i]) && current' == current + loadable[..i]
    {
      var m := loadable[i];
      assert loadable[..i + 1] == loadable[..i] + [m];
      WithoutMembers(pending, loadable[..i]);
      RemovedIsWithout(pending', m);
      WithoutTwice(pending, loadable[..i], m);
      step := step + [m];
      pending' := Removed(pending', m);
      current' := current' + [m];
    }
    assert loadable[..|loadable|] == loadable;
  }

  /** A permutation of the libraries with every library after all its dependencies. */
  method SortToDependencies(links: Links, libraries: seq<Library>) returns (sorted: seq<Library>)
    requires Closed(links) && Acyclic(links) && NoDup(libraries) && forall m :: m in links <==> m in libraries
    ensures NoDup(sorted) && (forall m :: m in sorted <==> m in libraries) && DependenciesFirst(links, [], sorted)
  {
    var steps := DependencyOrder(links, libraries, [], []);
    OrderIsSound(links, libraries, []);
    sorted := [];
    for i := 0 to |steps|
      invariant sorted == Flatten(steps[..i])
    {
      assert steps[..i + 1][..i] == steps[..i];
      sorted := sorted + steps[i];
    }
    assert steps[..|steps|] == steps;
  }
}
