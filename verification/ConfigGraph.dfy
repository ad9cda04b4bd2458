/** The graph that the gatherer walks, read off the type descriptions, and which types the record of a type must name. */
module ConfigGraph {
  import opened Prelude
  import opened Records
  import opened Gather
  import opened ConfigPaths

  // ----- Which edges a type has -----

  /** An attribute of `t` named `l` points to `x`, which is not the bare object. */
  ghost predicate Points(types: Types, t: Tid, l: string, x: Tid) {
    && t in types.attributes && Attribute(l, Pointer(x)) in types.attributes[t] && x != types.anyObject
  }

  /** A container attribute of `t` named `n` holds items of type `x`. */
  ghost predicate Contains(types: Types, t: Tid, n: string, x: Tid) {
    t in types.attributes && Attribute(n, Container(x)) in types.attributes[t]
  }

  /** A registered type below `t`. */
  ghost predicate ChildOf(types: Types, t: Tid, x: Tid) {
    x in types.registered && (x, t) in types.children
  }

  /** The other end of an aggregation. */
  ghost predicate Aggregated(types: Types, t: Tid, x: Tid) {
    (x, t) in types.aggregates || (t, x) in types.aggregates
  }

  ghost predicate Linked(types: Types, t: Tid, l: string, x: Tid) {
    || Points(types, t, l, x)
    || (exists n :: Contains(types, t, n, x) && l == n + "/[i]")
    || (l == "$" + types.Name(x) && (ChildOf(types, t, x) || Aggregated(types, t, x)))
  }

  lemma {:induction false} AttributeEdgesIff(types: Types, attributes: seq<Attribute>, l: string, x: Tid)
    ensures Edge(l, x) in AttributeEdges(types, attributes)
      <==> (Attribute(l, Pointer(x)) in attributes && x != types.anyObject)
           || exists n :: Attribute(n, Container(x)) in attributes && l == n + "/[i]"
  {
    if attributes != [] {
      var init, a := attributes[..|attributes| - 1], attributes[|attributes| - 1];
      assert attributes == init + [a];
      AttributeEdgesIff(types, init, l, x);
      assert forall b :: b in attributes <==> b in init || b == a;
      if n :| a == Attribute(n, Container(x)) && l == n + "/[i]" {
        assert EdgesOf(types, a)[0] == Edge(l, x);
      }
    }
  }

  lemma {:induction false} ChildEdgesIff(types: Types, t: Tid, candidates: seq<Tid>, l: string, x: Tid)
    ensures Edge(l, x) in ChildEdges(types, t, candidates)
      <==> x in candidates && (x, t) in types.children && l == "$" + types.Name(x)
  {
    if candidates != [] {
      var init, c := candidates[..|candidates| - 1], candidates[|candidates| - 1];
      assert candidates == init + [c];
      ChildEdgesIff(types, t, init, l, x);
    }
  }

  lemma {:induction false} AggregateEdgesIff(types: Types, t: Tid, aggregates: seq<(Tid, Tid)>, l: string, x: Tid)
    ensures Edge(l, x) in AggregateEdges(types, t, aggregates)
      <==> ((x, t) in aggregates || (t, x) in aggregates) && l == "$" + types.Name(x)
  {
    if aggregates != [] {
      var init, a := aggregates[..|aggregates| - 1], aggregates[|aggregates| - 1];
      assert aggregates == init + [a];
      AggregateEdgesIff(types, t, init, l, x);
      AggregateEdgeIff(types, t, a, l, x);
    }
  }

  lemma AggregateEdgeIff(types: Types, t: Tid, a: (Tid, Tid), l: string, x: Tid)
    ensures Edge(l, x) in AggregateEdge(types, t, a) <==> (a == (x, t) || a == (t, x)) && l == "$" + types.Name(x)
  {
  }

  /** An edge labelled `l` leads from `t` to `x` exactly if the descriptions link them so. */
  lemma EdgesIff(types: Types, t: Tid, l: string, x: Tid)
    ensures Edge(l, x) in Edges(types, t) <==> Linked(types, t, l, x)
  {
    hide AttributeEdges, ChildEdges, AggregateEdges;
    AttributeEdgesIff(types, types.AttributesOf(t), l, x);
    ChildEdgesIff(types, t, types.registered, l, x);
    AggregateEdgesIff(types, t, types.aggregates, l, x);
  }

  /** Edges come in the order of attributes, children and aggregations, at most one for each, and lists add up. */
  lemma {:induction false} AttributeEdgesAdd(types: Types, a: seq<Attribute>, b: seq<Attribute>, x: Attribute)
    ensures AttributeEdges(types, a + b) == AttributeEdges(types, a) + AttributeEdges(types, b)
    ensures AttributeEdges(types, [x]) == EdgesOf(types, x) && |EdgesOf(types, x)| <= 1
  {
    assert [x][..0] == [];
    if b == [] {
      assert a + b == a;
    } else {
      assert (a + b)[..|a + b| - 1] == a + b[..|b| - 1];
      AttributeEdgesAdd(types, a, b[..|b| - 1], x);
    }
  }

  lemma {:induction false} ChildEdgesAdd(types: Types, t: Tid, a: seq<Tid>, b: seq<Tid>, x: Tid)
    ensures ChildEdges(types, t, a + b) == ChildEdges(types, t, a) + ChildEdges(types, t, b)
    ensures |ChildEdges(types, t, [x])| <= 1
  {
    assert [x][..0] == [];
    if b == [] {
      assert a + b == a;
    } else {
      assert (a + b)[..|a + b| - 1] == a + b[..|b| - 1];
      ChildEdgesAdd(types, t, a, b[..|b| - 1], x);
    }
  }

  lemma {:induction false} AggregateEdgesAdd(types: Types, t: Tid, a: seq<(Tid, Tid)>, b: seq<(Tid, Tid)>, x: (Tid, Tid))
    ensures AggregateEdges(types, t, a + b) == AggregateEdges(types, t, a) + AggregateEdges(types, t, b)
    ensures |AggregateEdges(types, t, [x])| <= 1
  {
    assert [x][..0] == [];
    if b == [] {
      assert a + b == a;
    } else {
      assert (a + b)[..|a + b| - 1] == a + b[..|b| - 1];
      AggregateEdgesAdd(types, t, a, b[..|b| - 1], x);
    }
  }

  /** Attributes first, in their order, then children in the order of registration, then aggregations. */
  lemma EdgesInOrder(types: Types, t: Tid)
    requires t in types.attributes
    ensures var a, c, g := AttributeEdges(types, types.attributes[t]), ChildEdges(types, t, types.registered),
                           AggregateEdges(types, t, types.aggregates);
      var edges := Edges(types, t);
      |edges| == |a| + |c| + |g| && edges[..|a|] == a && edges[|a|..|a| + |c|] == c && edges[|a| + |c|..] == g
  {
    hide AttributeEdges, ChildEdges, AggregateEdges;
  }

  // ----- What the record must name -----

  lemma EntryOfPath(types: Types, tid: Tid, p: seq<nat>)
    requires types.Closed() && tid in types.registered && Simple(types, tid, [], p)
    ensures EntryOf(types, tid, [], p) in Record(types, tid)
  {
    hide Paths, Record, EntryOf, Visits;
    RecordRenders(types, tid);
    var k := PlaceOf(types, tid, p);
    assert Record(types, tid)[k] == EntryOf(types, tid, [], p);
  }

  /** The record of a type starts with the type itself. */
  lemma RecordStarts(types: Types, t: Tid)
    requires types.Closed() && t in types.registered
    ensures Record(types, t) != [] && Record(types, t)[0] == Entry(t, "")
  {
    hide Edges, PathsAlong, Visited, Followed, Renders;
    RecordRenders(types, t);
    FirstPath(types, t);
    RendersFirst(types, t, Paths(types, t, []), Record(types, t));
  }

  lemma FirstPath(types: Types, t: Tid)
    requires types.Closed() && t in types.registered
    ensures Paths(types, t, []) != [] && Paths(types, t, [])[0] == []
  {
  }

  lemma RendersFirst(types: Types, t: Tid, paths: seq<seq<nat>>, entries: seq<Entry>)
    requires Renders(types, t, [], paths, entries) && paths != [] && paths[0] == []
    ensures entries != [] && entries[0] == Entry(t, "")
  {
    assert Leads(types, t, paths[0]) && entries[0] == EntryOf(types, t, [], paths[0]);
    assert [] + Labels(types, t, []) == [];
  }

  // ----- Exactly what the record names -----

  /** Different types, each linked to the next under the label between them. */
  ghost predicate Chain(types: Types, visits: seq<Tid>, labels: seq<string>) {
    && |visits| == |labels| + 1 && NoDup(visits)
    && forall i :: 0 <= i < |labels| ==> Linked(types, visits[i], labels[i], visits[i + 1])
  }

  ghost predicate LinkedAlong(types: Types, visits: seq<Tid>, labels: seq<string>) {
    && |visits| == |labels| + 1
    && forall i :: 0 <= i < |labels| ==> Linked(types, visits[i], labels[i], visits[i + 1])
  }

  lemma {:induction false} PathIsChain(types: Types, t: Tid, p: seq<nat>)
    requires Leads(types, t, p)
    ensures var visits := Visits(types, t, p);
      LinkedAlong(types, visits, Labels(types, t, p)) && visits[0] == t && visits[|visits| - 1] == EndOf(types, t, p)
    decreases |p|
  {
    hide Edges, Linked;
    if p != [] {
      var e := Edges(types, t)[p[0]];
      EdgesIff(types, t, e.name, e.target);
      PathIsChain(types, e.target, p[1..]);
      LinkInFront(types, t, e.name, Visits(types, e.target, p[1..]), Labels(types, e.target, p[1..]));
    }
  }

  lemma LinkInFront(types: Types, t: Tid, l: string, visits: seq<Tid>, labels: seq<string>)
    requires LinkedAlong(types, visits, labels) && Linked(types, t, l, visits[0])
    ensures LinkedAlong(types, [t] + visits, [l] + labels)
  {
    hide Linked;
  }

  lemma {:induction false} ChainIsPath(types: Types, visits: seq<Tid>, labels: seq<string>) returns (p: seq<nat>)
    requires LinkedAlong(types, visits, labels)
    ensures Leads(types, visits[0], p) && Visits(types, visits[0], p) == visits && Labels(types, visits[0], p) == labels
    decreases |labels|
  {
    hide Edges, Linked;
    if labels == [] {
      p := [];
    } else {
      EdgesIff(types, visits[0], labels[0], visits[1]);
      var i :| 0 <= i < |Edges(types, visits[0])| && Edges(types, visits[0])[i] == Edge(labels[0], visits[1]);
      var rest := ChainIsPath(types, visits[1..], labels[1..]);
      p := [i] + rest;
      assert p[1..] == rest;
      assert [visits[0]] + visits[1..] == visits && [labels[0]] + labels[1..] == labels;
    }
  }

  /** The entries of chains from `t`. */
  ghost predicate Named(types: Types, t: Tid, x: Tid, text: string) {
    exists visits, labels ::
      Chain(types, visits, labels) && visits[0] == t && visits[|visits| - 1] == x && text == PathText(labels)
  }

  /** The record of a type names exactly the ends of chains of links through different types, under the labels of the chain. */
  lemma RecordNamesIff(types: Types, t: Tid, x: Tid, text: string)
    requires types.Closed() && t in types.registered
    ensures Entry(x, text) in Record(types, t) <==> Named(types, t, x, text)
  {
    if Entry(x, text) in Record(types, t) {
      NamedByRecord(types, t, x, text);
    }
    if Named(types, t, x, text) {
      RecordedIfNamed(types, t, x, text);
    }
  }

  lemma NamedByRecord(types: Types, t: Tid, x: Tid, text: string)
    requires types.Closed() && t in types.registered && Entry(x, text) in Record(types, t)
    ensures Named(types, t, x, text)
  {
    hide Paths, Record, Linked, PathText, Leads, Visits, Labels, EndOf;
    var k :| 0 <= k < |Record(types, t)| && Record(types, t)[k] == Entry(x, text);
    RecordRenders(types, t);
    PathAt(types, t, k);
    var p := Paths(types, t, [])[k];
    PathIsChain(types, t, p);
    assert [] + Labels(types, t, p) == Labels(types, t, p);
    assert Chain(types, Visits(types, t, p), Labels(types, t, p));
  }

  lemma RecordedIfNamed(types: Types, t: Tid, x: Tid, text: string)
    requires types.Closed() && t in types.registered && Named(types, t, x, text)
    ensures Entry(x, text) in Record(types, t)
  {
    hide Paths, Record, Linked, PathText, Leads, Visits, Labels, EndOf;
    var visits, labels :|
      Chain(types, visits, labels) && visits[0] == t && visits[|visits| - 1] == x && text == PathText(labels);
    var p := ChainIsPath(types, visits, labels);
    PathIsChain(types, t, p);
    assert [] + labels == labels;
    EntryOfPath(types, t, p);
  }

  /** In particular every other type linked to it, under the label of the link. */
  lemma RecordNamesNeighbours(types: Types, t: Tid, l: string, x: Tid)
    requires types.Closed() && t in types.registered && Linked(types, t, l, x) && x != t
    ensures Entry(x, "/" + l) in Record(types, t)
  {
    hide Linked, Record;
    RecordNamesIff(types, t, x, "/" + l);
    OneLabel(l);
    assert Chain(types, [t, x], [l]);
  }

  lemma OneLabel(l: string)
    ensures PathText([l]) == "/" + l
  {
    assert [l][..0] == [] && PathText([]) == "";
    assert "" + "/" == "/";
  }

  /** The text of a path is that of its parts, one after the other. */
  lemma {:induction false} PathTextsJoin(a: seq<string>, b: seq<string>)
    ensures PathText(a + b) == PathText(a) + PathText(b)
  {
    if b == [] {
      assert a + b == a;
    } else {
      assert (a + b)[..|a + b| - 1] == a + b[..|b| - 1];
      PathTextsJoin(a, b[..|b| - 1]);
      assert PathText(a) + PathText(b[..|b| - 1]) + "/" + b[|b| - 1] == PathText(a) + PathText(b);
    }
  }
}
