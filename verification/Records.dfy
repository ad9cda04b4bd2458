/** The gatherer's record of types and paths, its order, and the helper that sorts a container and drops repetitions. */
module Records {

  datatype Tid = Tid(id: nat)

  datatype Entry = Entry(tid: Tid, path: string)

  // ----- The order of entries -----

  predicate TextBelow(a: string, b: string) {
    b != [] && (a == [] || a[0] < b[0] || (a[0] == b[0] && TextBelow(a[1..], b[1..])))
  }

  /** Texts are ordered at the first character where they differ, and a proper beginning of a text comes before it. */
  lemma {:induction false} TextBelowIff(a: string, b: string)
    ensures TextBelow(a, b)
       <==> exists k: nat :: k <= |a| && k < |b| && a[..k] == b[..k] && (k == |a| || a[k] < b[k])
  {
    if TextBelow(a, b) {
      var k := FirstDifference(a, b);
      assert k <= |a| && k < |b| && a[..k] == b[..k] && (k == |a| || a[k] < b[k]);
    }
    forall k: nat | k <= |a| && k < |b| && a[..k] == b[..k] && (k == |a| || a[k] < b[k]) ensures TextBelow(a, b) {
      DifferenceDecides(a, b, k);
    }
  }

  lemma {:induction false} FirstDifference(a: string, b: string) returns (k: nat)
    requires TextBelow(a, b)
    ensures k <= |a| && k < |b| && a[..k] == b[..k] && (k == |a| || a[k] < b[k])
  {
    k := 0;
    if a != [] && a[0] == b[0] {
      var j := FirstDifference(a[1..], b[1..]);
      k := j + 1;
      assert a[..k] == [a[0]] + a[1..][..j] && b[..k] == [b[0]] + b[1..][..j];
    }
  }

  lemma {:induction false} DifferenceDecides(a: string, b: string, k: nat)
    requires k <= |a| && k < |b| && a[..k] == b[..k] && (k == |a| || a[k] < b[k])
    ensures TextBelow(a, b)
    decreases k
  {
    if k > 0 {
      assert a[0] == a[..k][0] == b[..k][0] == b[0];
      assert a[1..][..k - 1] == a[..k][1..] && b[1..][..k - 1] == b[..k][1..];
      DifferenceDecides(a[1..], b[1..], k - 1);
    }
  }

  /** By type number, then by path. */
  predicate Below(x: Entry, y: Entry) {
    x.tid.id < y.tid.id || (x.tid == y.tid && TextBelow(x.path, y.path))
  }

  lemma {:induction false} TextIsOrdered(a: string, b: string)
    ensures TextBelow(a, b) || TextBelow(b, a) || a == b
    ensures !(TextBelow(a, b) && TextBelow(b, a)) && !TextBelow(a, a)
  {
    if a != [] {
      TextIsOrdered(a[1..], a[1..]);
      if b != [] {
        TextIsOrdered(a[1..], b[1..]);
        assert a == [a[0]] + a[1..] && b == [b[0]] + b[1..];
      }
    }
  }

  lemma {:induction false} TextIsTransitive(a: string, b: string, c: string)
    requires TextBelow(a, b) && TextBelow(b, c)
    ensures TextBelow(a, c)
  {
    if a != [] && a[0] == b[0] == c[0] {
      TextIsTransitive(a[1..], b[1..], c[1..]);
    }
  }

  predicate AtMost(x: Entry, y: Entry) {
    x == y || Below(x, y)
  }

  lemma Trichotomy(x: Entry, y: Entry)
    ensures Below(x, y) || x == y || Below(y, x)
    ensures !(Below(x, y) && (x == y || Below(y, x)))
  {
    TextIsOrdered(x.path, y.path);
  }

  lemma AtMostIsTransitive(x: Entry, y: Entry, z: Entry)
    requires AtMost(x, y) && AtMost(y, z)
    ensures AtMost(x, z) && (x != y ==> Below(x, z))
  {
    if x != y && y != z && x.tid == y.tid == z.tid {
      TextIsTransitive(x.path, y.path, z.path);
    }
  }

  ghost predicate Ordered(s: seq<Entry>) {
    forall i, j :: 0 <= i < j < |s| ==> AtMost(s[i], s[j])
  }

  ghost predicate Increasing(s: seq<Entry>) {
    forall i, j :: 0 <= i < j < |s| ==> Below(s[i], s[j])
  }

  ghost predicate SameMembers(s: seq<Entry>, t: seq<Entry>) {
    forall e :: e in s <==> e in t
  }

  // ----- Sorting -----

  function Inserted(s: seq<Entry>, e: Entry): seq<Entry> {
    if s == [] then [e]
    else if Below(e, s[0]) then [e] + s
    else [s[0]] + Inserted(s[1..], e)
  }

  lemma {:induction false} InsertedMembers(s: seq<Entry>, e: Entry)
    ensures multiset(Inserted(s, e)) == multiset(s) + multiset{e}
  {
    if s != [] {
      assert s == [s[0]] + s[1..];
      InsertedMembers(s[1..], e);
    }
  }

  lemma OrderedCons(x: Entry, s: seq<Entry>)
    requires Ordered(s) && forall y :: y in s ==> AtMost(x, y)
    ensures Ordered([x] + s)
  {
    hide AtMost;
  }

  lemma {:induction false} InsertedIsOrdered(s: seq<Entry>, e: Entry)
    requires Ordered(s)
    ensures Ordered(Inserted(s, e))
  {
    hide Below;
    if s != [] {
      assert s == [s[0]] + s[1..];
      Trichotomy(e, s[0]);
      if Below(e, s[0]) {
        forall y | y in s ensures AtMost(e, y) {
          AtMostIsTransitive(e, s[0], y);
        }
        OrderedCons(e, s);
      } else {
        InsertedIsOrdered(s[1..], e);
        InsertedMembers(s[1..], e);
        forall y | y in Inserted(s[1..], e) ensures AtMost(s[0], y) {
          assert y in multiset(Inserted(s[1..], e));
        }
        OrderedCons(s[0], Inserted(s[1..], e));
      }
    }
  }

  /** What sorting leaves: the order decides it, whatever the algorithm. */
  function Sorted(s: seq<Entry>): seq<Entry> {
    if s == [] then [] else Inserted(Sorted(s[..|s| - 1]), s[|s| - 1])
  }

  lemma {:induction false} SortedIsOrdered(s: seq<Entry>)
    ensures Ordered(Sorted(s)) && multiset(Sorted(s)) == multiset(s)
  {
    if s != [] {
      var init, last := s[..|s| - 1], s[|s| - 1];
      assert s == init + [last];
      SortedIsOrdered(init);
      InsertedIsOrdered(Sorted(init), last);
      InsertedMembers(Sorted(init), last);
    }
  }

  // ----- Dropping repetitions -----

  /** Of equal neighbours only one is kept. */
  function Thinned(s: seq<Entry>): seq<Entry> {
    if |s| <= 1 then s
    else if s[0] == s[1] then Thinned(s[1..])
    else [s[0]] + Thinned(s[1..])
  }

  lemma {:induction false} ThinnedMembers(s: seq<Entry>)
    ensures SameMembers(Thinned(s), s)
  {
    if |s| > 1 {
      assert s == [s[0]] + s[1..];
      ThinnedMembers(s[1..]);
      assert s[1] in s[1..];
    }
  }

  lemma {:induction false} ThinnedIncreases(s: seq<Entry>)
    requires Ordered(s)
    ensures Increasing(Thinned(s))
  {
    hide Below;
    if |s| > 1 {
      assert s == [s[0]] + s[1..];
      ThinnedIncreases(s[1..]);
      if s[0] != s[1] {
        ThinnedMembers(s[1..]);
        forall y | y in Thinned(s[1..]) ensures Below(s[0], y) {
          AtMostIsTransitive(s[0], s[1], y);
        }
      }
    }
  }

  // ----- The helper -----

  function Uniqued(s: seq<Entry>): seq<Entry> {
    Thinned(Sorted(s))
  }

  /** Works on its own copy and returns what has become of it; the caller's container stays as it is. */
  method Uniquefy(t: seq<Entry>) returns (copy: seq<Entry>)
    ensures copy == Uniqued(t)
    ensures Increasing(copy) && SameMembers(copy, t)
  {
    copy := Sorted(t);
    copy := Thinned(copy);
    UniquedIsSet(t);
  }

  lemma UniquedIsSet(t: seq<Entry>)
    ensures Increasing(Uniqued(t)) && SameMembers(Uniqued(t), t)
  {
    SortedIsOrdered(t);
    ThinnedIncreases(Sorted(t));
    ThinnedMembers(Sorted(t));
    assert forall e :: e in t <==> e in multiset(t);
    assert forall e :: e in Sorted(t) <==> e in multiset(Sorted(t));
  }

  lemma FirstIsLeast(a: seq<Entry>, b: seq<Entry>)
    requires Increasing(a) && Increasing(b) && SameMembers(a, b) && a != []
    ensures b != [] && a[0] == b[0]
  {
    hide Below;
    assert a[0] in b;
    assert b[0] in a;
    var i :| 0 <= i < |b| && b[i] == a[0];
    var j :| 0 <= j < |a| && a[j] == b[0];
    Trichotomy(a[0], b[0]);
  }

  lemma IncreasingTail(s: seq<Entry>)
    requires Increasing(s) && s != []
    ensures Increasing(s[1..]) && forall e :: e in s[1..] <==> e in s && e != s[0]
  {
    hide Below;
    assert s == [s[0]] + s[1..];
    forall e | e in s[1..] ensures e != s[0] {
      var i :| 0 <= i < |s| - 1 && s[1..][i] == e;
      Trichotomy(s[0], s[i + 1]);
    }
  }

  lemma HeadIsMember(s: seq<Entry>)
    requires s != []
    ensures s[0] in s
  {
  }

  /** An increasing list is determined by its members. */
  lemma {:induction false} IncreasingIsUnique(a: seq<Entry>, b: seq<Entry>)
    requires Increasing(a) && Increasing(b) && SameMembers(a, b)
    ensures a == b
  {
    hide Below, Increasing;
    if a == [] {
      if b != [] {
        HeadIsMember(b);
      }
    } else {
      FirstIsLeast(a, b);
      IncreasingTail(a);
      IncreasingTail(b);
      IncreasingIsUnique(a[1..], b[1..]);
      assert a == [a[0]] + a[1..] && b == [b[0]] + b[1..];
    }
  }

  /** The helper would change nothing exactly on a container already strictly increasing. */
  lemma UniquedIsIdleIff(s: seq<Entry>)
    ensures Uniqued(s) == s <==> Increasing(s)
  {
    UniquedIsSet(s);
    if Increasing(s) {
      IncreasingIsUnique(Uniqued(s), s);
    }
  }
}
