/**
  What the gatherer's record amounts to: the simple edge paths from the root,
  and when sorting and thinning it would have made a difference.
 */
module ConfigPaths {
  import opened Prelude
  import opened Records
  import opened Gather

  // ----- Edge paths -----

  /** A path is the list of edge numbers taken; `Leads` says that they exist. */
  ghost predicate Leads(types: Types, tid: Tid, p: seq<nat>)
    decreases |p|
  {
    p == [] || (p[0] < |Edges(types, tid)| && Leads(types, Edges(types, tid)[p[0]].target, p[1..]))
  }

  ghost function Visits(types: Types, tid: Tid, p: seq<nat>): seq<Tid>
    requires Leads(types, tid, p)
    decreases |p|
  {
    [tid] + if p == [] then [] else Visits(types, Edges(types, tid)[p[0]].target, p[1..])
  }

  ghost function EndOf(types: Types, tid: Tid, p: seq<nat>): Tid
    requires Leads(types, tid, p)
    decreases |p|
  {
    if p == [] then tid else EndOf(types, Edges(types, tid)[p[0]].target, p[1..])
  }

  ghost function Labels(types: Types, tid: Tid, p: seq<nat>): seq<string>
    requires Leads(types, tid, p)
    decreases |p|
  {
    if p == [] then [] else [Edges(types, tid)[p[0]].name] + Labels(types, Edges(types, tid)[p[0]].target, p[1..])
  }

  /** A path that visits no type twice and none on the stack. */
  ghost predicate Simple(types: Types, tid: Tid, stack: seq<Tid>, p: seq<nat>) {
    Leads(types, tid, p) && NoDup(Visits(types, tid, p)) && forall t :: t in Visits(types, tid, p) ==> t !in stack
  }

  ghost function Prefixed(i: nat, paths: seq<seq<nat>>): (r: seq<seq<nat>>)
    ensures |r| == |paths| && forall k :: 0 <= k < |r| ==> r[k] == [i] + paths[k]
  {
    seq(|paths|, k requires 0 <= k < |paths| => [i] + paths[k])
  }

  /** The paths in the order in which the walk takes them. */
  ghost function Paths(types: Types, tid: Tid, stack: seq<Tid>): seq<seq<nat>>
    requires types.Closed() && tid in types.registered
    decreases |Fresh(types, stack)|, 0
  {
    if tid in stack then []
    else
      PushShrinks(types, stack, tid);
      [[]] + PathsAlong(types, tid, |Edges(types, tid)|, stack + [tid])
  }

  ghost function PathsAlong(types: Types, tid: Tid, k: nat, stack: seq<Tid>): seq<seq<nat>>
    requires types.Closed() && tid in types.registered && k <= |Edges(types, tid)|
    decreases |Fresh(types, stack)|, k + 1
  {
    if k == 0 then []
    else
      EdgesInside(types, tid);
      PathsAlong(types, tid, k - 1, stack) + Prefixed(k - 1, Paths(types, Edges(types, tid)[k - 1].target, stack))
  }

  lemma {:induction false} PathsAlongMembers(types: Types, tid: Tid, k: nat, stack: seq<Tid>, p: seq<nat>)
    requires types.Closed() && tid in types.registered && k <= |Edges(types, tid)|
    ensures Inside(types, Edges(types, tid))
    ensures p in PathsAlong(types, tid, k, stack)
        <==> p != [] && p[0] < k && p[1..] in Paths(types, Edges(types, tid)[p[0]].target, stack)
  {
    hide Edges, Paths;
    EdgesInside(types, tid);
    if k > 0 {
      PathsAlongMembers(types, tid, k - 1, stack, p);
      var last := Prefixed(k - 1, Paths(types, Edges(types, tid)[k - 1].target, stack));
      PrefixedMembers(k - 1, Paths(types, Edges(types, tid)[k - 1].target, stack), p);
      assert p in PathsAlong(types, tid, k, stack) <==> p in PathsAlong(types, tid, k - 1, stack) || p in last;
    }
  }

  lemma PrefixedMembers(i: nat, paths: seq<seq<nat>>, p: seq<nat>)
    ensures p in Prefixed(i, paths) <==> p != [] && p[0] == i && p[1..] in paths
  {
    if p in Prefixed(i, paths) {
      var k :| 0 <= k < |paths| && Prefixed(i, paths)[k] == p;
      assert p[1..] == paths[k];
    }
    if p != [] && p[0] == i && p[1..] in paths {
      var k :| 0 <= k < |paths| && paths[k] == p[1..];
      assert Prefixed(i, paths)[k] == p;
    }
  }

  /** The walk takes exactly the simple paths. */
  lemma {:induction false} PathsAreSimple(types: Types, tid: Tid, stack: seq<Tid>, p: seq<nat>)
    requires types.Closed() && tid in types.registered
    ensures p in Paths(types, tid, stack) <==> Simple(types, tid, stack, p)
    decreases |p|
  {
    EdgesInside(types, tid);
    if tid in stack {
      assert Leads(types, tid, p) ==> Visits(types, tid, p)[0] == tid;
    } else if p == [] {
      assert Paths(types, tid, stack)[0] == [];
    } else {
      PathsAlongMembers(types, tid, |Edges(types, tid)|, stack + [tid], p);
      assert p in Paths(types, tid, stack) <==> p in PathsAlong(types, tid, |Edges(types, tid)|, stack + [tid]);
      if p[0] < |Edges(types, tid)| {
        PathsAreSimple(types, Edges(types, tid)[p[0]].target, stack + [tid], p[1..]);
        SimpleStep(types, tid, stack, p);
      }
    }
  }

  lemma SimpleStep(types: Types, tid: Tid, stack: seq<Tid>, p: seq<nat>)
    requires tid !in stack && p != [] && p[0] < |Edges(types, tid)|
    ensures Simple(types, tid, stack, p) <==> Simple(types, Edges(types, tid)[p[0]].target, stack + [tid], p[1..])
  {
    hide Edges;
    var next := Edges(types, tid)[p[0]].target;
    if Leads(types, next, p[1..]) {
      var rest := Visits(types, next, p[1..]);
      assert Visits(types, tid, p) == [tid] + rest;
      NoDupCons(tid, rest);
      assert forall t :: t in [tid] + rest <==> t == tid || t in rest;
      assert forall t :: t in stack + [tid] <==> t in stack || t == tid;
    }
  }

  lemma NoDupCons<T>(x: T, s: seq<T>)
    ensures NoDup([x] + s) <==> NoDup(s) && x !in s
  {
    var t := [x] + s;
    assert forall i :: 0 <= i < |s| ==> t[i + 1] == s[i];
    if NoDup(t) {
      forall i | 0 <= i < |s| ensures s[i] != x {
        assert t[0] != t[i + 1];
      }
      forall i, j | 0 <= i < j < |s| ensures s[i] != s[j] {
        assert t[i + 1] != t[j + 1];
      }
    }
  }

  // ----- The order of the paths -----

  /** A path comes before its extensions, and lower edge numbers come first. */
  predicate PathBelow(p: seq<nat>, q: seq<nat>) {
    q != [] && (p == [] || p[0] < q[0] || (p[0] == q[0] && PathBelow(p[1..], q[1..])))
  }

  /** Paths are ordered at the first edge where they part, and a path comes before its extensions. */
  lemma PathBelowIff(p: seq<nat>, q: seq<nat>)
    ensures PathBelow(p, q)
       <==> exists k: nat :: k <= |p| && k < |q| && p[..k] == q[..k] && (k == |p| || p[k] < q[k])
  {
    if PathBelow(p, q) {
      var k := WherePathsPart(p, q);
      assert k <= |p| && k < |q| && p[..k] == q[..k] && (k == |p| || p[k] < q[k]);
    }
    forall k: nat | k <= |p| && k < |q| && p[..k] == q[..k] && (k == |p| || p[k] < q[k]) ensures PathBelow(p, q) {
      PartingDecides(p, q, k);
    }
  }

  lemma {:induction false} WherePathsPart(p: seq<nat>, q: seq<nat>) returns (k: nat)
    requires PathBelow(p, q)
    ensures k <= |p| && k < |q| && p[..k] == q[..k] && (k == |p| || p[k] < q[k])
  {
    k := 0;
    if p != [] && p[0] == q[0] {
      var j := WherePathsPart(p[1..], q[1..]);
      k := j + 1;
      assert p[..k] == [p[0]] + p[1..][..j] && q[..k] == [q[0]] + q[1..][..j];
    }
  }

  lemma {:induction false} PartingDecides(p: seq<nat>, q: seq<nat>, k: nat)
    requires k <= |p| && k < |q| && p[..k] == q[..k] && (k == |p| || p[k] < q[k])
    ensures PathBelow(p, q)
    decreases k
  {
    if k > 0 {
      assert p[0] == p[..k][0] == q[..k][0] == q[0];
      assert p[1..][..k - 1] == p[..k][1..] && q[1..][..k - 1] == q[..k][1..];
      PartingDecides(p[1..], q[1..], k - 1);
    }
  }

  lemma {:induction false} PathBelowIsStrict(p: seq<nat>, q: seq<nat>)
    ensures !(PathBelow(p, q) && PathBelow(q, p)) && !PathBelow(p, p)
  {
    if p != [] {
      PathBelowIsStrict(p[1..], p[1..]);
      if q != [] {
        PathBelowIsStrict(p[1..], q[1..]);
      }
    }
  }

  ghost predicate InOrder(paths: seq<seq<nat>>) {
    forall i, j :: 0 <= i < j < |paths| ==> PathBelow(paths[i], paths[j])
  }

  lemma InOrderJoin(a: seq<seq<nat>>, b: seq<seq<nat>>)
    requires InOrder(a) && InOrder(b) && forall p, q :: p in a && q in b ==> PathBelow(p, q)
    ensures InOrder(a + b)
  {
    hide PathBelow;
    assert forall i :: 0 <= i < |a| ==> a[i] in a;
    assert forall i :: 0 <= i < |b| ==> b[i] in b;
  }

  lemma PrefixedInOrder(i: nat, paths: seq<seq<nat>>)
    requires InOrder(paths)
    ensures InOrder(Prefixed(i, paths))
  {
    var r := Prefixed(i, paths);
    forall a, b | 0 <= a < b < |r| ensures PathBelow(r[a], r[b]) {
      assert r[a][1..] == paths[a] && r[b][1..] == paths[b];
    }
  }

  /** The walk takes its paths in this order. */
  lemma {:induction false} PathsInOrder(types: Types, tid: Tid, stack: seq<Tid>)
    requires types.Closed() && tid in types.registered
    ensures InOrder(Paths(types, tid, stack))
    decreases |Fresh(types, stack)|, 0
  {
    if tid !in stack {
      PushShrinks(types, stack, tid);
      var n := |Edges(types, tid)|;
      PathsAlongInOrder(types, tid, n, stack + [tid]);
      forall q | q in PathsAlong(types, tid, n, stack + [tid]) ensures PathBelow([], q) {
        PathsAlongMembers(types, tid, n, stack + [tid], q);
      }
      InOrderJoin([[]], PathsAlong(types, tid, n, stack + [tid]));
    }
  }

  lemma {:induction false} PathsAlongInOrder(types: Types, tid: Tid, k: nat, stack: seq<Tid>)
    requires types.Closed() && tid in types.registered && k <= |Edges(types, tid)|
    ensures InOrder(PathsAlong(types, tid, k, stack))
    decreases |Fresh(types, stack)|, k + 1
  {
    hide Edges, Paths, Fresh, Prefixed;
    EdgesInside(types, tid);
    if k == 0 {
    } else {
      hide InOrder;
      var before, next := PathsAlong(types, tid, k - 1, stack), Paths(types, Edges(types, tid)[k - 1].target, stack);
      PathsAlongInOrder(types, tid, k - 1, stack);
      PathsInOrder(types, Edges(types, tid)[k - 1].target, stack);
      forall p, q | p in before && q in Prefixed(k - 1, next) ensures PathBelow(p, q) {
        PathsAlongMembers(types, tid, k - 1, stack, p);
        PrefixedMembers(k - 1, next, q);
      }
      PrefixedInOrder(k - 1, next);
      InOrderJoin(before, Prefixed(k - 1, next));
    }
  }

  /** No path is taken twice. */
  lemma PathsAreDistinct(types: Types, tid: Tid, stack: seq<Tid>)
    requires types.Closed() && tid in types.registered
    ensures NoDup(Paths(types, tid, stack))
  {
    hide Paths;
    var paths := Paths(types, tid, stack);
    PathsInOrder(types, tid, stack);
    forall i, j | 0 <= i < j < |paths| ensures paths[i] != paths[j] {
      PathBelowIsStrict(paths[i], paths[j]);
    }
  }

  // ----- The record is the list of simple paths -----

  ghost function EntryOf(types: Types, tid: Tid, path: seq<string>, p: seq<nat>): Entry
    requires Leads(types, tid, p)
  {
    Entry(EndOf(types, tid, p), PathText(path + Labels(types, tid, p)))
  }

  /** `entries` are those of `paths`, one for one and in order. */
  ghost predicate Renders(types: Types, tid: Tid, path: seq<string>, paths: seq<seq<nat>>, entries: seq<Entry>) {
    |entries| == |paths|
    && forall k :: 0 <= k < |paths| ==> Leads(types, tid, paths[k]) && entries[k] == EntryOf(types, tid, path, paths[k])
  }

  lemma RendersPrefixed(types: Types, tid: Tid, i: nat, path: seq<string>, paths: seq<seq<nat>>, entries: seq<Entry>)
    requires i < |Edges(types, tid)|
    requires Renders(types, Edges(types, tid)[i].target, path + [Edges(types, tid)[i].name], paths, entries)
    ensures Renders(types, tid, path, Prefixed(i, paths), entries)
  {
    hide Edges, PathText;
    var e := Edges(types, tid)[i];
    forall k | 0 <= k < |paths|
      ensures Leads(types, tid, [i] + paths[k]) && EntryOf(types, tid, path, [i] + paths[k])
          == EntryOf(types, e.target, path + [e.name], paths[k])
    {
      var p := [i] + paths[k];
      assert p[1..] == paths[k];
      assert path + Labels(types, tid, p) == path + [e.name] + Labels(types, e.target, paths[k]);
    }
  }

  lemma RendersJoin(types: Types, tid: Tid, path: seq<string>, a: seq<seq<nat>>, b: seq<seq<nat>>, x: seq<Entry>, y: seq<Entry>)
    requires Renders(types, tid, path, a, x) && Renders(types, tid, path, b, y)
    ensures Renders(types, tid, path, a + b, x + y)
  {
    hide Leads, EntryOf;
  }

  lemma RendersRoot(types: Types, tid: Tid, path: seq<string>)
    ensures Renders(types, tid, path, [[]], [Entry(tid, PathText(path))])
  {
    hide PathText;
    assert path + Labels(types, tid, []) == path;
  }

  lemma Regroup<T>(a: seq<T>, b: seq<T>, c: seq<T>)
    ensures a + b + c == a + (b + c)
  {
  }

  lemma {:induction false} VisitedRenders(types: Types, tid: Tid, path: seq<string>, stack: seq<Tid>,
      output: seq<Entry>) returns (entries: seq<Entry>)
    requires types.Closed() && tid in types.registered
    ensures Visited(types, tid, path, stack, output) == output + entries
    ensures Renders(types, tid, path, Paths(types, tid, stack), entries)
    decreases |Fresh(types, stack)|, 0
  {
    hide Followed, PathsAlong, PathText, Edges, Fresh;
    if tid in stack {
      entries := [];
    } else {
      PushShrinks(types, stack, tid);
      EdgesInside(types, tid);
      var first, edges := [Entry(tid, PathText(path))], Edges(types, tid);
      var rest := FollowedRenders(types, tid, |edges|, path, stack + [tid], output + first);
      assert edges[..|edges|] == edges;
      hide Renders;
      RendersRoot(types, tid, path);
      RendersJoin(types, tid, path, [[]], PathsAlong(types, tid, |edges|, stack + [tid]), first, rest);
      Regroup(output, first, rest);
      entries := first + rest;
    }
  }

  lemma {:induction false} FollowedRenders(types: Types, tid: Tid, k: nat, path: seq<string>, stack: seq<Tid>,
      output: seq<Entry>)
    returns (entries: seq<Entry>)
    requires types.Closed() && tid in types.registered && k <= |Edges(types, tid)|
    ensures Inside(types, Edges(types, tid)[..k])
    ensures Followed(types, Edges(types, tid)[..k], path, stack, output) == output + entries
    ensures Renders(types, tid, path, PathsAlong(types, tid, k, stack), entries)
    decreases |Fresh(types, stack)|, k + 1
  {
    hide Visited, Paths, Edges, Fresh;
    EdgesInside(types, tid);
    if k == 0 {
      entries := [];
    } else {
      hide Renders;
      var before := FollowedRenders(types, tid, k - 1, path, stack, output);
      var e := Edges(types, tid)[k - 1];
      var next := VisitedRenders(types, e.target, path + [e.name], stack, output + before);
      assert Edges(types, tid)[..k][..k - 1] == Edges(types, tid)[..k - 1];
      RendersPrefixed(types, tid, k - 1, path, Paths(types, e.target, stack), next);
      RendersJoin(types, tid, path, PathsAlong(types, tid, k - 1, stack),
          Prefixed(k - 1, Paths(types, e.target, stack)), before, next);
      Regroup(output, before, next);
      entries := before + next;
    }
  }

  /**
    On any type graph, cyclic or not, the walk from a root appends one entry
    per simple edge path, in order: the paths listed are distinct, they are
    exactly the simple ones, and each entry names the end and the labels of its path.
   */
  lemma RecordIsSimplePaths(types: Types, tid: Tid, output: seq<Entry>)
    requires types.Closed() && tid in types.registered
    ensures output <= Visited(types, tid, [], [], output)
    ensures Renders(types, tid, [], Paths(types, tid, []), Visited(types, tid, [], [], output)[|output|..])
    ensures NoDup(Paths(types, tid, []))
    ensures forall p :: p in Paths(types, tid, []) <==> Leads(types, tid, p) && NoDup(Visits(types, tid, p))
  {
    hide Visited, Paths, Renders, Leads, Visits, NoDup;
    var entries := VisitedRenders(types, tid, [], [], output);
    assert (output + entries)[|output|..] == entries;
    PathsAreDistinct(types, tid, []);
    forall p ensures p in Paths(types, tid, []) <==> Leads(types, tid, p) && NoDup(Visits(types, tid, p)) {
      PathsAreSimple(types, tid, [], p);
    }
  }

  // ----- What sorting and thinning would have changed -----

  ghost function Record(types: Types, tid: Tid): seq<Entry>
    requires types.Closed() && tid in types.registered
  {
    Visited(types, tid, [], [], [])
  }

  lemma RecordRenders(types: Types, tid: Tid)
    requires types.Closed() && tid in types.registered
    ensures Renders(types, tid, [], Paths(types, tid, []), Record(types, tid))
  {
    hide Visited, Paths, Renders;
    RecordIsSimplePaths(types, tid, []);
    assert Record(types, tid)[0..] == Record(types, tid);
  }

  /** Different simple paths always differ in their end or in the text of their labels. */
  ghost predicate PathsTellApart(types: Types, tid: Tid) {
    forall p, q :: Simple(types, tid, [], p) && Simple(types, tid, [], q) && p != q ==>
      EntryOf(types, tid, [], p) != EntryOf(types, tid, [], q)
  }

  /** The entries of simple paths are ordered as the paths are. */
  ghost predicate EntriesFollowPaths(types: Types, tid: Tid) {
    forall p, q :: Simple(types, tid, [], p) && Simple(types, tid, [], q) && PathBelow(p, q) ==>
      Below(EntryOf(types, tid, [], p), EntryOf(types, tid, [], q))
  }

  lemma PathAt(types: Types, tid: Tid, k: nat)
    requires types.Closed() && tid in types.registered && k < |Paths(types, tid, [])|
    ensures Simple(types, tid, [], Paths(types, tid, [])[k])
  {
    hide Paths, Simple;
    assert Paths(types, tid, [])[k] in Paths(types, tid, []);
    PathsAreSimple(types, tid, [], Paths(types, tid, [])[k]);
  }

  lemma PlaceOf(types: Types, tid: Tid, p: seq<nat>) returns (k: nat)
    requires types.Closed() && tid in types.registered && Simple(types, tid, [], p)
    ensures k < |Paths(types, tid, [])| && Paths(types, tid, [])[k] == p
  {
    hide Paths, Simple;
    PathsAreSimple(types, tid, [], p);
    k :| 0 <= k < |Paths(types, tid, [])| && Paths(types, tid, [])[k] == p;
  }

  /** The record repeats an entry exactly when two simple paths have the same end and labels. */
  lemma RecordRepeatsIff(types: Types, tid: Tid)
    requires types.Closed() && tid in types.registered
    ensures NoDup(Record(types, tid)) <==> PathsTellApart(types, tid)
  {
    hide Paths, Record, EntryOf, Leads, Visits;
    var paths, record := Paths(types, tid, []), Record(types, tid);
    RecordRenders(types, tid);
    if NoDup(record) {
      forall p, q | Simple(types, tid, [], p) && Simple(types, tid, [], q) && p != q
        ensures EntryOf(types, tid, [], p) != EntryOf(types, tid, [], q)
      {
        var i := PlaceOf(types, tid, p);
        var j := PlaceOf(types, tid, q);
        assert record[i] != record[j];
      }
    }
    if PathsTellApart(types, tid) {
      PathsAreDistinct(types, tid, []);
      forall i, j | 0 <= i < j < |record| ensures record[i] != record[j] {
        PathAt(types, tid, i);
        PathAt(types, tid, j);
        assert paths[i] != paths[j];
      }
    }
  }

  /** Sorting and thinning would leave the record alone exactly when the entries are ordered as the paths are. */
  lemma RecordStaysIff(types: Types, tid: Tid)
    requires types.Closed() && tid in types.registered
    ensures Uniqued(Record(types, tid)) == Record(types, tid) <==> EntriesFollowPaths(types, tid)
  {
    hide Paths, Record, EntryOf, Leads, Visits, Below, PathBelow;
    var paths, record := Paths(types, tid, []), Record(types, tid);
    RecordRenders(types, tid);
    UniquedIsIdleIff(record);
    PathsInOrder(types, tid, []);
    if Increasing(record) {
      forall p, q | Simple(types, tid, [], p) && Simple(types, tid, [], q) && PathBelow(p, q)
        ensures Below(EntryOf(types, tid, [], p), EntryOf(types, tid, [], q))
      {
        var i := PlaceOf(types, tid, p);
        var j := PlaceOf(types, tid, q);
        PathBelowIsStrict(p, q);
        assert i < j;
      }
    }
    if EntriesFollowPaths(types, tid) {
      forall i, j | 0 <= i < j < |record| ensures Below(record[i], record[j]) {
        PathAt(types, tid, i);
        PathAt(types, tid, j);
        assert PathBelow(paths[i], paths[j]);
      }
    }
  }

  /** An aggregation registered from both ends: the record keeps an entry twice, and the helper's copy does not. */
  lemma RecordKeepsRepetitions() returns (types: Types, tid: Tid)
    ensures types.Closed() && tid in types.registered
    ensures !NoDup(Record(types, tid)) && Uniqued(Record(types, tid)) != Record(types, tid)
  {
    hide Record, Simple, EntryOf, Uniqued, PathsTellApart, EntriesFollowPaths;
    var a, b := Tid(0), Tid(1);
    var relations := [(a, b), (b, a)];
    types := Types([a, b], map[a := "A", b := "B"], map[a := [], b := []], {}, Tid(2), relations);
    tid := a;
    BothEnds(types, a, b);
    EqualEntriesShow(types, a, [0], [1]);
    RecordRepeatsIff(types, a);
    RecordStaysIff(types, a);
  }

  lemma EqualEntriesShow(types: Types, tid: Tid, p: seq<nat>, q: seq<nat>)
    requires PathBelow(p, q) && Simple(types, tid, [], p) && Simple(types, tid, [], q)
    requires EntryOf(types, tid, [], p) == EntryOf(types, tid, [], q)
    ensures !PathsTellApart(types, tid) && !EntriesFollowPaths(types, tid)
  {
    hide Leads, Visits, EndOf, Labels, Below;
    PathBelowIsStrict(p, q);
    Trichotomy(EntryOf(types, tid, [], p), EntryOf(types, tid, [], q));
  }

  lemma BothEnds(types: Types, a: Tid, b: Tid)
    requires a != b && types.registered == [a, b] && types.children == {} && types.aggregates == [(a, b), (b, a)]
    requires types.AttributesOf(a) == []
    ensures PathBelow([0], [1]) && Simple(types, a, [], [0]) && Simple(types, a, [], [1])
    ensures EntryOf(types, a, [], [0]) == EntryOf(types, a, [], [1])
  {
    hide Edges, PathText;
    BothEdges(types, a, b);
    assert Visits(types, b, []) == [b];
    assert Visits(types, a, [0]) == [a, b] == Visits(types, a, [1]);
  }

  lemma BothEdges(types: Types, a: Tid, b: Tid)
    requires a != b && types.registered == [a, b] && types.children == {} && types.aggregates == [(a, b), (b, a)]
    requires types.AttributesOf(a) == []
    ensures Edges(types, a) == [Edge("$" + types.Name(b), b), Edge("$" + types.Name(b), b)]
  {
    var e := Edge("$" + types.Name(b), b);
    assert AllAttributeEdges(types, a) == [];
    assert AllChildEdges(types, a) == [] by {
      assert types.registered[..1] == [a] && types.registered[..1][..0] == [];
      assert ChildEdges(types, a, types.registered[..1]) == [];
    }
    assert AllAggregateEdges(types, a) == [e, e] by {
      assert types.aggregates[..1] == [(a, b)] && types.aggregates[..1][..0] == [];
      assert AggregateEdges(types, a, types.aggregates[..1]) == [e];
    }
  }
}
