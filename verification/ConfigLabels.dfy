/**
  When the gatherer's record repeats an entry, read off the type graph: if
  labels can be told apart in a path and lead where they say, exactly when a
  type that the walk reaches has the same edge twice.
 */
module ConfigLabels {
  import opened Prelude
  import opened Records
  import opened Gather
  import opened ConfigPaths

  // ----- Labels -----

  predicate Plain(w: string) {
    '/' !in w && w != "[i]"
  }

  /** The label of a container attribute. */
  predicate Indexed(l: string) {
    |l| >= 4 && l[|l| - 4..] == "/[i]" && Plain(l[..|l| - 4])
  }

  predicate Label(l: string) {
    Plain(l) || Indexed(l)
  }

  ghost predicate AllLabels(path: seq<string>) {
    forall l :: l in path ==> Label(l)
  }

  /** Names hold no slash, and edges of one type with the same label have the same target. */
  ghost predicate WellLabelled(types: Types) {
    forall t, i, j :: t in types.registered && 0 <= i < |Edges(types, t)| && 0 <= j < |Edges(types, t)| ==>
      EdgesAgree(Edges(types, t)[i], Edges(types, t)[j])
  }

  predicate EdgesAgree(e: Edge, f: Edge) {
    Label(e.name) && (e.name == f.name ==> e.target == f.target)
  }

  // ----- The text of a path determines its labels -----

  lemma LastSegment(x: string, u: string, y: string, w: string)
    requires x + "/" + u == y + "/" + w && '/' !in u && '/' !in w
    ensures u == w && x == y
  {
    var a, b := x + "/" + u, y + "/" + w;
    assert a[|x|] == '/' && b[|y|] == '/';
    assert forall k :: |x| < k < |a| ==> a[k] == u[k - |x| - 1] && a[k] in u;
    assert forall k :: |y| < k < |b| ==> b[k] == w[k - |y| - 1] && b[k] in w;
    assert |x| == |y|;
    assert a[..|x|] == x && b[..|y|] == y && a[|x| + 1..] == u && b[|y| + 1..] == w;
  }

  lemma IndexedSegments(x: string, l: string)
    requires Indexed(l)
    ensures x + "/" + l == (x + "/" + l[..|l| - 4]) + "/" + "[i]"
  {
    assert l == l[..|l| - 4] + "/[i]";
    assert "/[i]" == "/" + "[i]";
  }

  /** The last label of a text is determined, and so is what comes before it. */
  lemma LastLabel(x: string, l: string, y: string, m: string)
    requires Label(l) && Label(m) && x + "/" + l == y + "/" + m
    ensures l == m && x == y
  {
    if Indexed(l) {
      IndexedSegments(x, l);
    }
    if Indexed(m) {
      IndexedSegments(y, m);
    }
    assert '/' !in "[i]";
    if Plain(l) && Plain(m) {
      LastSegment(x, l, y, m);
    } else if Plain(l) {
      LastSegment(x, l, y + "/" + m[..|m| - 4], "[i]");
    } else if Plain(m) {
      LastSegment(x + "/" + l[..|l| - 4], "[i]", y, m);
    } else {
      LastSegment(x + "/" + l[..|l| - 4], "[i]", y + "/" + m[..|m| - 4], "[i]");
      LastSegment(x, l[..|l| - 4], y, m[..|m| - 4]);
      assert l == l[..|l| - 4] + "/[i]" && m == m[..|m| - 4] + "/[i]";
    }
  }

  lemma {:induction false} TextTellsLabels(a: seq<string>, b: seq<string>)
    requires AllLabels(a) && AllLabels(b) && PathText(a) == PathText(b)
    ensures a == b
  {
    if a != [] && b != [] {
      var i, j := |a| - 1, |b| - 1;
      assert a == a[..i] + [a[i]] && b == b[..j] + [b[j]];
      LastLabel(PathText(a[..i]), a[i], PathText(b[..j]), b[j]);
      TextTellsLabels(a[..i], b[..j]);
    }
  }

  // ----- Labels determine the way -----

  lemma {:induction false} LabelsAreLabels(types: Types, tid: Tid, p: seq<nat>)
    requires types.Closed() && tid in types.registered && WellLabelled(types) && Leads(types, tid, p)
    ensures AllLabels(Labels(types, tid, p))
    decreases |p|
  {
    hide Edges, Label;
    if p != [] {
      var e := Edges(types, tid)[p[0]];
      EdgesInside(types, tid);
      assert EdgesAgree(e, e);
      LabelsAreLabels(types, e.target, p[1..]);
    }
  }

  /** The same edge twice on a type that a simple path reaches, to a type not on that path. */
  ghost predicate Twin(types: Types, tid: Tid, stack: seq<Tid>, r: seq<nat>, i: nat, j: nat) {
    && Simple(types, tid, stack, r + [i]) && Leads(types, tid, r) && i != j
    && var edges := Edges(types, EndOf(types, tid, r));
      i < |edges| && j < |edges| && edges[i] == edges[j]
  }

  lemma StepIsSimple(types: Types, tid: Tid, stack: seq<Tid>, p: seq<nat>)
    requires p != [] && Simple(types, tid, stack, p)
    ensures tid !in stack && p[0] < |Edges(types, tid)|
    ensures Simple(types, Edges(types, tid)[p[0]].target, stack + [tid], p[1..])
    ensures Simple(types, tid, stack, [p[0]])
  {
    hide Edges;
    assert Visits(types, tid, p)[0] == tid;
    SimpleStep(types, tid, stack, p);
    var next := Edges(types, tid)[p[0]].target;
    assert Visits(types, next, p[1..])[0] == next;
    assert [p[0]][1..] == [];
    SimpleStep(types, tid, stack, [p[0]]);
  }

  lemma StepBack(types: Types, tid: Tid, stack: seq<Tid>, i: nat, p: seq<nat>)
    requires tid !in stack && i < |Edges(types, tid)|
    requires Simple(types, Edges(types, tid)[i].target, stack + [tid], p)
    ensures Simple(types, tid, stack, [i] + p)
    ensures EndOf(types, tid, [i] + p) == EndOf(types, Edges(types, tid)[i].target, p)
    ensures Labels(types, tid, [i] + p) == [Edges(types, tid)[i].name] + Labels(types, Edges(types, tid)[i].target, p)
  {
    hide Edges;
    assert ([i] + p)[1..] == p;
    SimpleStep(types, tid, stack, [i] + p);
  }

  /** Two simple paths with the same labels part at a twin. */
  lemma {:induction false} PartingIsTwin(types: Types, tid: Tid, stack: seq<Tid>, p: seq<nat>, q: seq<nat>)
    returns (r: seq<nat>, i: nat, j: nat)
    requires types.Closed() && tid in types.registered && WellLabelled(types)
    requires Simple(types, tid, stack, p) && Simple(types, tid, stack, q) && p != q
    requires Labels(types, tid, p) == Labels(types, tid, q)
    ensures Twin(types, tid, stack, r, i, j)
    decreases |p|
  {
    hide Edges, Visits, NoDup;
    SameLength(types, tid, stack, p, q);
    i, j := p[0], q[0];
    StepIsSimple(types, tid, stack, p);
    StepIsSimple(types, tid, stack, q);
    var e, f := Edges(types, tid)[i], Edges(types, tid)[j];
    assert Labels(types, tid, p)[0] == e.name && Labels(types, tid, q)[0] == f.name;
    assert EdgesAgree(e, f);
    if i != j {
      r := [];
      assert [] + [i] == [i];
    } else {
      EdgesInside(types, tid);
      assert Labels(types, tid, p)[1..] == Labels(types, e.target, p[1..]);
      assert Labels(types, tid, q)[1..] == Labels(types, e.target, q[1..]);
      assert p == [i] + p[1..] && q == [i] + q[1..];
      var rest;
      rest, i, j := PartingIsTwin(types, e.target, stack + [tid], p[1..], q[1..]);
      r := [p[0]] + rest;
      TwinStepsBack(types, tid, stack, p[0], rest, i, j);
    }
  }

  lemma SameLength(types: Types, tid: Tid, stack: seq<Tid>, p: seq<nat>, q: seq<nat>)
    requires Simple(types, tid, stack, p) && Simple(types, tid, stack, q) && p != q
    requires Labels(types, tid, p) == Labels(types, tid, q)
    ensures p != [] && q != []
  {
    hide Edges;
  }

  lemma TwinStepsBack(types: Types, tid: Tid, stack: seq<Tid>, k: nat, r: seq<nat>, i: nat, j: nat)
    requires tid !in stack && k < |Edges(types, tid)|
    requires Twin(types, Edges(types, tid)[k].target, stack + [tid], r, i, j)
    ensures Twin(types, tid, stack, [k] + r, i, j)
  {
    hide Edges, Simple, Visits;
    StepBack(types, tid, stack, k, r + [i]);
    assert [k] + (r + [i]) == [k] + r + [i];
    assert ([k] + r)[1..] == r;
  }

  /** A twin gives two simple paths with the same end and labels. */
  lemma {:induction false} TwinRepeats(types: Types, tid: Tid, stack: seq<Tid>, r: seq<nat>, i: nat, j: nat)
    requires Twin(types, tid, stack, r, i, j)
    ensures Simple(types, tid, stack, r + [j])
    ensures EndOf(types, tid, r + [i]) == EndOf(types, tid, r + [j])
    ensures Labels(types, tid, r + [i]) == Labels(types, tid, r + [j])
    decreases |r|
  {
    hide Edges, Simple, Visits;
    StepIsSimple(types, tid, stack, r + [i]);
    if r == [] {
      assert r + [i] == [i] + [] && r + [j] == [j] + [];
      assert [i][1..] == [];
      StepBack(types, tid, stack, i, []);
      StepBack(types, tid, stack, j, []);
    } else {
      var next := Edges(types, tid)[r[0]].target;
      assert (r + [i])[1..] == r[1..] + [i];
      TwinRepeats(types, next, stack + [tid], r[1..], i, j);
      StepBack(types, tid, stack, r[0], r[1..] + [i]);
      StepBack(types, tid, stack, r[0], r[1..] + [j]);
      assert [r[0]] + (r[1..] + [i]) == r + [i] && [r[0]] + (r[1..] + [j]) == r + [j];
    }
  }

  lemma RepetitionShowsTwin(types: Types, tid: Tid) returns (r: seq<nat>, i: nat, j: nat)
    requires types.Closed() && tid in types.registered && WellLabelled(types) && !PathsTellApart(types, tid)
    ensures Twin(types, tid, [], r, i, j)
  {
    hide Twin, WellLabelled, Leads, Visits, Labels, EndOf, PathText;
    var p, q :| Simple(types, tid, [], p) && Simple(types, tid, [], q) && p != q
                && EntryOf(types, tid, [], p) == EntryOf(types, tid, [], q);
    LabelsAreLabels(types, tid, p);
    LabelsAreLabels(types, tid, q);
    assert [] + Labels(types, tid, p) == Labels(types, tid, p) && [] + Labels(types, tid, q) == Labels(types, tid, q);
    TextTellsLabels(Labels(types, tid, p), Labels(types, tid, q));
    r, i, j := PartingIsTwin(types, tid, [], p, q);
  }

  /**
    With labels as they should be, the record repeats an entry if and only if a type on some simple path
    has the same edge twice.
   */
  lemma RecordRepeatsIffTwin(types: Types, tid: Tid)
    requires types.Closed() && tid in types.registered && WellLabelled(types)
    ensures !NoDup(Record(types, tid)) <==> exists r, i, j :: Twin(types, tid, [], r, i, j)
  {
    hide Twin, WellLabelled, Record, Leads, Visits, Labels, EndOf, PathText;
    RecordRepeatsIff(types, tid);
    if !PathsTellApart(types, tid) {
      var r, i, j := RepetitionShowsTwin(types, tid);
    }
    if r, i, j :| Twin(types, tid, [], r, i, j) {
      TwinIsSeen(types, tid, r, i, j);
    }
  }

  lemma TwinIsSeen(types: Types, tid: Tid, r: seq<nat>, i: nat, j: nat)
    requires Twin(types, tid, [], r, i, j)
    ensures !PathsTellApart(types, tid)
  {
    hide Edges, Leads, Visits, Labels, EndOf, PathText;
    TwinRepeats(types, tid, [], r, i, j);
    assert (r + [i])[|r|] == i && (r + [j])[|r|] == j;
    assert EntryOf(types, tid, [], r + [i]) == EntryOf(types, tid, [], r + [j]);
  }

  // ----- A step the sort would undo -----

  /** If a simple path steps to a type with a smaller number, sorting would have changed the record. */
  lemma LowerStepIsUnsorted(types: Types, tid: Tid, p: seq<nat>, i: nat)
    requires types.Closed() && tid in types.registered
    requires Simple(types, tid, [], p) && Simple(types, tid, [], p + [i])
    requires EndOf(types, tid, p + [i]).id < EndOf(types, tid, p).id
    ensures Uniqued(Record(types, tid)) != Record(types, tid)
  {
    hide Record, Leads, Visits, EndOf, Labels, PathText, PathBelow;
    RecordStaysIff(types, tid);
    ExtensionIsBelow(p, i);
    Trichotomy(EntryOf(types, tid, [], p), EntryOf(types, tid, [], p + [i]));
  }

  lemma {:induction false} ExtensionIsBelow(p: seq<nat>, i: nat)
    ensures PathBelow(p, p + [i])
  {
    if p != [] {
      ExtensionIsBelow(p[1..], i);
      assert (p + [i])[1..] == p[1..] + [i];
    }
  }
}
