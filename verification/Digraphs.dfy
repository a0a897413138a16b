/** Finite directed graphs as sets of arcs: paths, reachability and cycles. */
module Digraphs {
  type Digraph<T(==)> = set<(T, T)>

  ghost predicate IsPath<T>(g: Digraph<T>, p: seq<T>) {
    |p| > 0 && forall i :: 0 < i < |p| ==> (p[i - 1], p[i]) in g
  }

  ghost predicate PathBetween<T>(g: Digraph<T>, p: seq<T>, a: T, b: T) {
    IsPath(g, p) && p[0] == a && p[|p| - 1] == b
  }

  ghost predicate Reaches<T(!new)>(g: Digraph<T>, a: T, b: T) {
    exists p :: PathBetween(g, p, a, b)
  }

  /** No arc can be closed into a cycle. */
  ghost predicate Acyclic<T(!new)>(g: Digraph<T>) {
    forall a, b :: (a, b) in g ==> !Reaches(g, b, a)
  }

  ghost predicate ClosedUnder<T(!new)>(g: Digraph<T>, s: set<T>) {
    forall a, b :: (a, b) in g && a in s ==> b in s
  }

  lemma ReachesSelf<T(!new)>(g: Digraph<T>, a: T)
    ensures Reaches(g, a, a)
  {
    assert PathBetween(g, [a], a, a);
  }

  lemma ReachesArc<T(!new)>(g: Digraph<T>, a: T, b: T)
    requires (a, b) in g
    ensures Reaches(g, a, b)
  {
    assert PathBetween(g, [a, b], a, b);
  }

  lemma ReachesTrans<T(!new)>(g: Digraph<T>, a: T, b: T, c: T)
    requires Reaches(g, a, b) && Reaches(g, b, c)
    ensures Reaches(g, a, c)
  {
    var p :| PathBetween(g, p, a, b);
    var q :| PathBetween(g, q, b, c);
    var r := p + q[1..];
    forall i | 0 < i < |r|
      ensures (r[i - 1], r[i]) in g
    {
      if i >= |p| {
        var j := i - |p| + 1;
        assert (q[j - 1], q[j]) in g;
        assert r[i] == q[j] && r[i - 1] == q[j - 1];
      }
    }
    assert PathBetween(g, r, a, c);
  }

  lemma ReachesMono<T(!new)>(g: Digraph<T>, h: Digraph<T>, a: T, b: T)
    requires g <= h && Reaches(g, a, b)
    ensures Reaches(h, a, b)
  {
    var p :| PathBetween(g, p, a, b);
    assert PathBetween(h, p, a, b);
  }

  lemma SubgraphAcyclic<T(!new)>(g: Digraph<T>, h: Digraph<T>)
    requires g <= h && Acyclic(h)
    ensures Acyclic(g)
  {
    forall a, b | (a, b) in g
      ensures !Reaches(g, b, a)
    {
      if Reaches(g, b, a) {
        ReachesMono(g, h, b, a);
      }
    }
  }

  /** The first arc of a path that is not a single vertex. */
  lemma FirstStep<T(!new)>(g: Digraph<T>, a: T, b: T) returns (c: T)
    requires Reaches(g, a, b) && a != b
    ensures (a, c) in g && Reaches(g, c, b)
  {
    var p :| PathBetween(g, p, a, b);
    c := p[1];
    var q := p[1..];
    forall i | 0 < i < |q|
      ensures (q[i - 1], q[i]) in g
    {
      assert (p[i], p[i + 1]) in g;
    }
    assert (p[0], p[1]) in g;
    assert PathBetween(g, q, c, b);
  }

  lemma ClosedContains<T(!new)>(g: Digraph<T>, s: set<T>, a: T, b: T)
    requires ClosedUnder(g, s) && a in s && Reaches(g, a, b)
    ensures b in s
  {
    var p :| PathBetween(g, p, a, b);
    ClosedPath(g, s, p, |p| - 1);
  }

  lemma {:induction false} ClosedPath<T(!new)>(g: Digraph<T>, s: set<T>, p: seq<T>, n: nat)
    requires ClosedUnder(g, s) && IsPath(g, p) && p[0] in s && n < |p|
    ensures p[n] in s
  {
    if n > 0 {
      ClosedPath(g, s, p, n - 1);
      assert (p[n - 1], p[n]) in g;
    }
  }

  /** A path after adding the arc (a, b) either avoids it or splits at it. */
  lemma {:induction false} AddArcPath<T(!new)>(g: Digraph<T>, a: T, b: T, p: seq<T>)
    requires IsPath(g + {(a, b)}, p)
    ensures Reaches(g, p[0], p[|p| - 1]) || (Reaches(g, p[0], a) && Reaches(g, b, p[|p| - 1]))
    decreases |p|
  {
    if |p| == 1 {
      ReachesSelf(g, p[0]);
    } else {
      var q := p[1..];
      forall i | 0 < i < |q|
        ensures (q[i - 1], q[i]) in g + {(a, b)}
      {
        assert (p[i], p[i + 1]) in g + {(a, b)};
      }
      AddArcPath(g, a, b, q);
      var z := p[|p| - 1];
      assert q[|q| - 1] == z;
      assert (p[0], p[1]) in g + {(a, b)};
      if (p[0], p[1]) in g {
        ReachesArc(g, p[0], p[1]);
        if Reaches(g, p[1], z) {
          ReachesTrans(g, p[0], p[1], z);
        } else {
          ReachesTrans(g, p[0], p[1], a);
        }
      } else {
        ReachesSelf(g, a);
      }
    }
  }

  lemma AddArcReaches<T(!new)>(g: Digraph<T>, a: T, b: T, x: T, y: T)
    requires Reaches(g + {(a, b)}, x, y)
    ensures Reaches(g, x, y) || (Reaches(g, x, a) && Reaches(g, b, y))
  {
    var p :| PathBetween(g + {(a, b)}, p, x, y);
    AddArcPath(g, a, b, p);
  }

  /** Adding one arc to an acyclic graph closes a cycle exactly when its head already reaches its tail. */
  lemma AddArcAcyclic<T(!new)>(g: Digraph<T>, a: T, b: T)
    requires Acyclic(g)
    ensures Acyclic(g + {(a, b)}) <==> !Reaches(g, b, a)
  {
    var h := g + {(a, b)};
    if Reaches(g, b, a) {
      ReachesMono(g, h, b, a);
      assert (a, b) in h;
    } else {
      forall x, y | (x, y) in h
        ensures !Reaches(h, y, x)
      {
        if Reaches(h, y, x) {
          AddArcReaches(g, a, b, y, x);
          if (x, y) in g {
            assert !Reaches(g, y, x);
            ReachesArc(g, x, y);
            ReachesTrans(g, b, x, y);
            ReachesTrans(g, b, y, a);
          }
        }
      }
    }
  }

  ghost function Reverse<T>(g: Digraph<T>): Digraph<T> {
    set arc | arc in g :: (arc.1, arc.0)
  }

  lemma ReverseReaches<T(!new)>(g: Digraph<T>, a: T, b: T)
    requires Reaches(g, a, b)
    ensures Reaches(Reverse(g), b, a)
  {
    var p :| PathBetween(g, p, a, b);
    var n := |p|;
    var q := seq(n, i requires 0 <= i < n => p[n - 1 - i]);
    forall i | 0 < i < |q|
      ensures (q[i - 1], q[i]) in Reverse(g)
    {
      assert (p[n - 1 - i], p[n - i]) in g;
    }
    assert PathBetween(Reverse(g), q, b, a);
  }

  ghost predicate HasPredecessor<T>(g: Digraph<T>, s: set<T>, y: T) {
    exists z :: z in s && (z, y) in g
  }

  /** A walk of n arcs backwards from x that stays inside s. */
  lemma {:induction false} BackwardWalk<T(!new)>(g: Digraph<T>, s: set<T>, x: T, n: nat) returns (p: seq<T>)
    requires x in s
    requires forall y :: y in s ==> HasPredecessor(g, s, y)
    ensures IsPath(g, p) && |p| == n + 1 && p[n] == x && forall v :: v in p ==> v in s
  {
    if n == 0 {
      p := [x];
    } else {
      assert HasPredecessor(g, s, x);
      var z :| z in s && (z, x) in g;
      var q := BackwardWalk(g, s, z, n - 1);
      p := q + [x];
    }
  }

  /** The pigeonhole principle for sequences over a finite set. */
  lemma {:induction false} Pigeonhole<T>(s: set<T>, p: seq<T>) returns (i: nat, j: nat)
    requires (forall v :: v in p ==> v in s) && |p| > |s|
    ensures i < j < |p| && p[i] == p[j]
    decreases |p|
  {
    var n := |p| - 1;
    var x := p[n];
    assert x in p;
    if k :| 0 <= k < n && p[k] == x {
      i, j := k, n;
    } else {
      assert forall v :: v in p[..n] ==> v in s - {x};
      i, j := Pigeonhole(s - {x}, p[..n]);
    }
  }

  lemma SubpathReaches<T(!new)>(g: Digraph<T>, p: seq<T>, i: nat, j: nat)
    requires IsPath(g, p) && i <= j < |p|
    ensures Reaches(g, p[i], p[j])
  {
    var q := p[i..j + 1];
    forall k | 0 < k < |q|
      ensures (q[k - 1], q[k]) in g
    {
      assert (p[i + k - 1], p[i + k]) in g;
    }
    assert PathBetween(g, q, p[i], p[j]);
  }

  /** If every vertex of a nonempty finite set has a predecessor in the set, the graph has a cycle. */
  lemma NoSourceMeansCycle<T(!new)>(g: Digraph<T>, s: set<T>)
    requires s != {}
    requires forall y :: y in s ==> HasPredecessor(g, s, y)
    ensures !Acyclic(g)
  {
    var x :| x in s;
    var p := BackwardWalk(g, s, x, |s|);
    var i, j := Pigeonhole(s, p);
    SubpathReaches(g, p, i + 1, j);
    assert (p[i], p[i + 1]) in g;
  }

  /** A numbering that grows along every arc rules out cycles. */
  lemma RankMeansAcyclic<T(!new)>(g: Digraph<T>, rank: map<T, int>)
    requires forall a, b :: (a, b) in g ==> a in rank && b in rank && rank[a] < rank[b]
    ensures Acyclic(g)
  {
    forall a, b | (a, b) in g
      ensures !Reaches(g, b, a)
    {
      if Reaches(g, b, a) {
        var p :| PathBetween(g, p, b, a);
        RankAlongPath(g, rank, p, |p| - 1);
      }
    }
  }

  lemma {:induction false} RankAlongPath<T(!new)>(g: Digraph<T>, rank: map<T, int>, p: seq<T>, n: nat)
    requires forall a, b :: (a, b) in g ==> a in rank && b in rank && rank[a] < rank[b]
    requires IsPath(g, p) && n < |p| && p[0] in rank
    ensures p[n] in rank && rank[p[0]] <= rank[p[n]]
  {
    if n > 0 {
      RankAlongPath(g, rank, p, n - 1);
      assert (p[n - 1], p[n]) in g;
    }
  }
}
