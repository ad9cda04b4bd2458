/**
  The configuration-path gatherer: a depth-first walk over the graph of
  registered types that follows attributes, child types and aggregation
  relations, and stops at types already on the walk.
 */
module Gather {
  import opened Prelude
  import opened Records

  datatype Checker = Pointer(pointee: Tid) | Container(item: Tid) | Plain

  datatype Attribute = Attribute(name: string, checker: Checker)

  datatype Edge = Edge(name: string, target: Tid)

  /** `registered` are all types; `anyObject` is the type of a bare Object; `children` holds (child, ancestor) pairs. */
  datatype Types = Types(
    registered: seq<Tid>, names: map<Tid, string>, attributes: map<Tid, seq<Attribute>>,
    children: set<(Tid, Tid)>, anyObject: Tid, aggregates: seq<(Tid, Tid)>)
  {
    /** Every type mentioned is registered and described. */
    ghost predicate Closed() {
      && (forall t :: t in registered ==> t in names && t in attributes && forall a :: a in attributes[t] ==> Known(a.checker))
      && (forall a :: a in aggregates ==> a.0 in registered && a.1 in registered)
    }

    ghost predicate Known(c: Checker) {
      match c
      case Pointer(p) => p in registered
      case Container(p) => p in registered
      case Plain => true
    }

    function Name(t: Tid): string {
      if t in names then names[t] else ""
    }

    function AttributesOf(t: Tid): seq<Attribute> {
      if t in attributes then attributes[t] else []
    }
  }

  // ----- The type graph -----

  /** Pointers to a bare Object are not followed. */
  function EdgesOf(types: Types, a: Attribute): seq<Edge> {
    match a.checker
    case Pointer(p) => if p == types.anyObject then [] else [Edge(a.name, p)]
    case Container(p) => [Edge(a.name + "/[i]", p)]
    case Plain => []
  }

  function AttributeEdges(types: Types, attributes: seq<Attribute>): seq<Edge> {
    if attributes == [] then []
    else
      var a := attributes[|attributes| - 1];
      AttributeEdges(types, attributes[..|attributes| - 1])
      + EdgesOf(types, a)
  }

  function ChildEdge(types: Types, tid: Tid, c: Tid): seq<Edge> {
    if (c, tid) in types.children then [Edge("$" + types.Name(c), c)] else []
  }

  function ChildEdges(types: Types, tid: Tid, candidates: seq<Tid>): seq<Edge> {
    if candidates == [] then []
    else ChildEdges(types, tid, candidates[..|candidates| - 1]) + ChildEdge(types, tid, candidates[|candidates| - 1])
  }

  /** The other end of an aggregation relation, whichever end the type is. */
  function AggregateEdge(types: Types, tid: Tid, a: (Tid, Tid)): seq<Edge> {
    if a.1 == tid then [Edge("$" + types.Name(a.0), a.0)]
    else if a.0 == tid then [Edge("$" + types.Name(a.1), a.1)]
    else []
  }

  function AggregateEdges(types: Types, tid: Tid, aggregates: seq<(Tid, Tid)>): seq<Edge> {
    if aggregates == [] then []
    else AggregateEdges(types, tid, aggregates[..|aggregates| - 1]) + AggregateEdge(types, tid, aggregates[|aggregates| - 1])
  }

  function AllAttributeEdges(types: Types, tid: Tid): seq<Edge> {
    AttributeEdges(types, types.AttributesOf(tid))
  }

  function AllChildEdges(types: Types, tid: Tid): seq<Edge> {
    ChildEdges(types, tid, types.registered)
  }

  function AllAggregateEdges(types: Types, tid: Tid): seq<Edge> {
    AggregateEdges(types, tid, types.aggregates)
  }

  /** The edges of a type in the order in which they are followed. */
  function Edges(types: Types, tid: Tid): seq<Edge> {
    AllAttributeEdges(types, tid) + AllChildEdges(types, tid) + AllAggregateEdges(types, tid)
  }

  ghost predicate Inside(types: Types, edges: seq<Edge>) {
    forall e :: e in edges ==> e.target in types.registered
  }

  lemma {:induction false} AttributesInside(types: Types, tid: Tid, k: nat)
    requires types.Closed() && tid in types.registered && k <= |types.AttributesOf(tid)|
    ensures Inside(types, AttributeEdges(types, types.AttributesOf(tid)[..k]))
    ensures if k == 0 then AttributeEdges(types, types.AttributesOf(tid)[..k]) == []
            else Inside(types, EdgesOf(types, types.AttributesOf(tid)[k - 1]))
                 && AttributeEdges(types, types.AttributesOf(tid)[..k])
                     == AttributeEdges(types, types.AttributesOf(tid)[..k - 1])
                     + EdgesOf(types, types.AttributesOf(tid)[k - 1])
  {
    if k > 0 {
      AttributesInside(types, tid, k - 1);
      assert types.AttributesOf(tid)[..k][..k - 1] == types.AttributesOf(tid)[..k - 1];
      assert types.AttributesOf(tid)[k - 1] in types.AttributesOf(tid);
    }
  }

  lemma {:induction false} ChildrenInside(types: Types, tid: Tid, k: nat)
    requires types.Closed() && k <= |types.registered|
    ensures Inside(types, ChildEdges(types, tid, types.registered[..k]))
    ensures if k == 0 then ChildEdges(types, tid, types.registered[..k]) == []
            else Inside(types, ChildEdge(types, tid, types.registered[k - 1]))
                 && ChildEdges(types, tid, types.registered[..k]) == ChildEdges(types, tid, types.registered[..k - 1])
                     + ChildEdge(types, tid, types.registered[k - 1])
  {
    if k > 0 {
      ChildrenInside(types, tid, k - 1);
      assert types.registered[..k][..k - 1] == types.registered[..k - 1];
      assert types.registered[k - 1] in types.registered;
    }
  }

  lemma {:induction false} AggregatesInside(types: Types, tid: Tid, k: nat)
    requires types.Closed() && k <= |types.aggregates|
    ensures Inside(types, AggregateEdges(types, tid, types.aggregates[..k]))
    ensures if k == 0 then AggregateEdges(types, tid, types.aggregates[..k]) == []
            else Inside(types, AggregateEdge(types, tid, types.aggregates[k - 1]))
                 && AggregateEdges(types, tid, types.aggregates[..k])
                     == AggregateEdges(types, tid, types.aggregates[..k - 1])
                     + AggregateEdge(types, tid, types.aggregates[k - 1])
  {
    if k > 0 {
      AggregatesInside(types, tid, k - 1);
      assert types.aggregates[..k][..k - 1] == types.aggregates[..k - 1];
      assert types.aggregates[k - 1] in types.aggregates;
    }
  }

  lemma PartsInside(types: Types, tid: Tid)
    requires types.Closed() && tid in types.registered
    ensures Inside(types, AllAttributeEdges(types, tid)) && Inside(types, AllChildEdges(types, tid))
        && Inside(types, AllAggregateEdges(types, tid))
  {
    AttributesInside(types, tid, |types.AttributesOf(tid)|);
    ChildrenInside(types, tid, |types.registered|);
    AggregatesInside(types, tid, |types.aggregates|);
    assert types.AttributesOf(tid)[..|types.AttributesOf(tid)|] == types.AttributesOf(tid);
    assert types.registered[..|types.registered|] == types.registered;
    assert types.aggregates[..|types.aggregates|] == types.aggregates;
  }

  lemma EdgesInside(types: Types, tid: Tid)
    requires types.Closed() && tid in types.registered
    ensures Inside(types, Edges(types, tid))
  {
    PartsInside(types, tid);
  }

  // ----- The walk -----

  /** The registered types not on the stack. */
  ghost function Fresh(types: Types, stack: seq<Tid>): set<Tid> {
    ToSet(types.registered) - ToSet(stack)
  }

  lemma PushShrinks(types: Types, stack: seq<Tid>, tid: Tid)
    requires tid in types.registered && tid !in stack
    ensures |Fresh(types, stack + [tid])| < |Fresh(types, stack)|
  {
    assert Fresh(types, stack + [tid]) == Fresh(types, stack) - {tid};
    assert tid in Fresh(types, stack);
  }

  function PathText(path: seq<string>): string {
    if path == [] then "" else PathText(path[..|path| - 1]) + "/" + path[|path| - 1]
  }

  /** The output after visiting `tid`, with `path` walked and `stack` being processed. */
  ghost function Visited(types: Types, tid: Tid, path: seq<string>, stack: seq<Tid>, output: seq<Entry>): seq<Entry>
    requires types.Closed() && tid in types.registered
    decreases |Fresh(types, stack)|, 0
  {
    if tid in stack then output
    else
      PushShrinks(types, stack, tid);
      EdgesInside(types, tid);
      Followed(types, Edges(types, tid), path, stack + [tid], output + [Entry(tid, PathText(path))])
  }

  /** The output after following the edges in order. */
  ghost function Followed(types: Types, edges: seq<Edge>, path: seq<string>, stack: seq<Tid>, output: seq<Entry>): seq<Entry>
    requires types.Closed() && Inside(types, edges)
    decreases |Fresh(types, stack)|, |edges| + 1
  {
    if edges == [] then output
    else
      var e := edges[|edges| - 1];
      Visited(types, e.target, path + [e.name], stack, Followed(types, edges[..|edges| - 1], path, stack, output))
  }

  lemma {:induction false} FollowedConcat(types: Types, a: seq<Edge>, b: seq<Edge>, path: seq<string>,
      stack: seq<Tid>, output: seq<Entry>)
    requires types.Closed() && Inside(types, a) && Inside(types, b)
    ensures Inside(types, a + b)
    ensures Followed(types, a + b, path, stack, output)
        == Followed(types, b, path, stack, Followed(types, a, path, stack, output))
  {
    if b == [] {
      assert a + b == a;
    } else {
      var init, last := b[..|b| - 1], b[|b| - 1];
      FollowedConcat(types, a, init, path, stack, output);
      assert (a + b)[..|a + b| - 1] == a + init && (a + b)[|a + b| - 1] == last;
    }
  }

  /** Following no edge or one more edge. */
  lemma FollowedSnoc(types: Types, a: seq<Edge>, b: seq<Edge>, path: seq<string>, stack: seq<Tid>, output: seq<Entry>)
    requires types.Closed() && Inside(types, a) && Inside(types, b) && |b| <= 1
    ensures Inside(types, a + b)
    ensures Followed(types, a + b, path, stack, output)
         == if b == [] then Followed(types, a, path, stack, output)
            else Visited(types, b[0].target, path + [b[0].name], stack, Followed(types, a, path, stack, output))
  {
    if b == [] {
      assert a + b == a;
    } else {
      assert (a + b)[..|a|] == a;
    }
  }

  lemma FollowedNone(types: Types, path: seq<string>, stack: seq<Tid>, output: seq<Entry>)
    requires types.Closed()
    ensures Followed(types, [], path, stack, output) == output
  {
  }

  lemma FollowedParts(types: Types, tid: Tid, path: seq<string>, stack: seq<Tid>, output: seq<Entry>)
    requires types.Closed() && tid in types.registered
    ensures Inside(types, Edges(types, tid))
    ensures Inside(types, AllAttributeEdges(types, tid)) && Inside(types, AllChildEdges(types, tid))
        && Inside(types, AllAggregateEdges(types, tid))
    ensures Followed(types, Edges(types, tid), path, stack, output)
         == Followed(types, AllAggregateEdges(types, tid), path, stack,
              Followed(types, AllChildEdges(types, tid), path, stack,
                Followed(types, AllAttributeEdges(types, tid), path, stack, output)))
  {
    PartsInside(types, tid);
    var a, c, g := AllAttributeEdges(types, tid), AllChildEdges(types, tid), AllAggregateEdges(types, tid);
    FollowedConcat(types, a, c, path, stack, output);
    FollowedConcat(types, a + c, g, path, stack, output);
  }

  class StaticInformation {
    const types: Types
    var output: seq<Entry>
    var currentPath: seq<string>
    var alreadyProcessed: seq<Tid>

    constructor (types: Types)
      ensures this.types == types && output == [] && currentPath == [] && alreadyProcessed == []
    {
      this.types := types;
      output, currentPath, alreadyProcessed := [], [], [];
    }

    /** Appends what the walk from `tid` records and leaves both stacks as they were. */
    method DoGather(tid: Tid)
      requires types.Closed() && tid in types.registered
      modifies this
      ensures currentPath == old(currentPath) && alreadyProcessed == old(alreadyProcessed)
      ensures output == Visited(types, tid, currentPath, alreadyProcessed, old(output))
      decreases |Fresh(types, alreadyProcessed)|, 3
    {
      if HasAlreadyBeenProcessed(tid) {
        return;
      }
      output := output + [Entry(tid, PathText(currentPath))];
      FollowedParts(types, tid, currentPath, alreadyProcessed + [tid], output);
      GatherAttributes(tid);
      GatherChildren(tid);
      GatherAggregates(tid);
    }

    predicate HasAlreadyBeenProcessed(tid: Tid)
      reads this
    {
      tid in alreadyProcessed
    }

    /** Walk one edge with the label and the type pushed. */
    method Follow(tid: Tid, e: Edge)
      requires types.Closed() && tid in types.registered && tid !in alreadyProcessed && e.target in types.registered
      modifies this
      ensures currentPath == old(currentPath) && alreadyProcessed == old(alreadyProcessed)
      ensures output == Visited(types, e.target, currentPath + [e.name], alreadyProcessed + [tid], old(output))
      decreases |Fresh(types, alreadyProcessed)|, 1
    {
      PushShrinks(types, alreadyProcessed, tid);
      currentPath := currentPath + [e.name];
      alreadyProcessed := alreadyProcessed + [tid];
      DoGather(e.target);
      alreadyProcessed := alreadyProcessed[..|alreadyProcessed| - 1];
      currentPath := currentPath[..|currentPath| - 1];
    }

    method GatherAttributes(tid: Tid)
      requires types.Closed() && tid in types.registered && tid !in alreadyProcessed
      modifies this
      ensures currentPath == old(currentPath) && alreadyProcessed == old(alreadyProcessed)
      ensures Inside(types, AllAttributeEdges(types, tid))
      ensures output == Followed(types, AllAttributeEdges(types, tid), currentPath, alreadyProcessed + [tid], old(output))
      decreases |Fresh(types, alreadyProcessed)|, 2
    {
      hide Visited, Followed, Fresh, AttributeEdges;
      var attributes := types.AttributesOf(tid);
      ghost var path, stack, start := currentPath, alreadyProcessed + [tid], output;
      AttributesInside(types, tid, 0);
      FollowedNone(types, path, stack, start);
      for i := 0 to |attributes|
        invariant currentPath == old(currentPath) && alreadyProcessed == old(alreadyProcessed)
        invariant Inside(types, AttributeEdges(types, attributes[..i]))
        invariant output == Followed(types, AttributeEdges(types, attributes[..i]), path, stack, start)
      {
        var info := attributes[i];
        AttributesInside(types, tid, i + 1);
        FollowedSnoc(types, AttributeEdges(types, attributes[..i]), EdgesOf(types, info), path, stack, start);
        match info.checker
        case Pointer(pointee) =>
          if pointee != types.anyObject {
            Follow(tid, Edge(info.name, pointee));
          }
        case Container(item) => Follow(tid, Edge(info.name + "/[i]", item));
        case Plain =>
      }
      assert attributes[..|attributes|] == attributes;
    }

    method GatherChildren(tid: Tid)
      requires types.Closed() && tid in types.registered && tid !in alreadyProcessed
      modifies this
      ensures currentPath == old(currentPath) && alreadyProcessed == old(alreadyProcessed)
      ensures Inside(types, AllChildEdges(types, tid))
      ensures output == Followed(types, AllChildEdges(types, tid), currentPath, alreadyProcessed + [tid], old(output))
      decreases |Fresh(types, alreadyProcessed)|, 2
    {
      hide Visited, Followed, Fresh, ChildEdges;
      ghost var path, stack, start := currentPath, alreadyProcessed + [tid], output;
      ChildrenInside(types, tid, 0);
      FollowedNone(types, path, stack, start);
      for j := 0 to |types.registered|
        invariant currentPath == old(currentPath) && alreadyProcessed == old(alreadyProcessed)
        invariant Inside(types, ChildEdges(types, tid, types.registered[..j]))
        invariant output == Followed(types, ChildEdges(types, tid, types.registered[..j]), path, stack, start)
      {
        var child := types.registered[j];
        ChildrenInside(types, tid, j + 1);
        FollowedSnoc(types, ChildEdges(types, tid, types.registered[..j]), ChildEdge(types, tid, child), path, stack, start);
        if (child, tid) in types.children {
          Follow(tid, Edge("$" + types.Name(child), child));
        }
      }
      assert types.registered[..|types.registered|] == types.registered;
    }

    method GatherAggregates(tid: Tid)
      requires types.Closed() && tid in types.registered && tid !in alreadyProcessed
      modifies this
      ensures currentPath == old(currentPath) && alreadyProcessed == old(alreadyProcessed)
      ensures Inside(types, AllAggregateEdges(types, tid))
      ensures output == Followed(types, AllAggregateEdges(types, tid), currentPath, alreadyProcessed + [tid], old(output))
      decreases |Fresh(types, alreadyProcessed)|, 2
    {
      hide Visited, Followed, Fresh, AggregateEdges;
      ghost var path, stack, start := currentPath, alreadyProcessed + [tid], output;
      AggregatesInside(types, tid, 0);
      FollowedNone(types, path, stack, start);
      for k := 0 to |types.aggregates|
        invariant currentPath == old(currentPath) && alreadyProcessed == old(alreadyProcessed)
        invariant Inside(types, AggregateEdges(types, tid, types.aggregates[..k]))
        invariant output == Followed(types, AggregateEdges(types, tid, types.aggregates[..k]), path, stack, start)
      {
        var item := types.aggregates[k];
        assert item in types.aggregates;
        AggregatesInside(types, tid, k + 1);
        FollowedSnoc(types, AggregateEdges(types, tid, types.aggregates[..k]), AggregateEdge(types, tid, item), path,
            stack, start);
        if item.0 == tid || item.1 == tid {
          var other := if item.1 == tid then item.0 else item.1;
          Follow(tid, Edge("$" + types.Name(other), other));
        }
      }
      assert types.aggregates[..|types.aggregates|] == types.aggregates;
    }

    /** What is sorted and thinned in the end is the helper's own copy of the record. */
    method Gather(tid: Tid)
      requires types.Closed() && tid in types.registered
      modifies this
      ensures currentPath == old(currentPath) && alreadyProcessed == old(alreadyProcessed)
      ensures output == Visited(types, tid, currentPath, alreadyProcessed, old(output))
    {
      DoGather(tid);
      var copy := Uniquefy(output);
    }
  }
}
