/** Finite directed graphs over string identifiers: paths, reachability, acyclicity and bounded search.
    An edge (a, b) reads "a points at b"; every graph of the system (task dependencies, deadlock
    graph, file impact, repository dependencies) is given its meaning through this module. */
module Digraphs {
  type Edges = set<(string, string)>

  /** A path is a non-empty sequence of nodes in which every consecutive pair is an edge. */
  ghost predicate Path(e: Edges, p: seq<string>) {
    |p| >= 1 && forall i | 0 <= i < |p| - 1 :: (p[i], p[i + 1]) in e
  }

  ghost predicate PathBetween(e: Edges, p: seq<string>, a: string, b: string) {
    Path(e, p) && p[0] == a && p[|p| - 1] == b
  }

  /** b is reached from a along at least one edge. */
  ghost predicate Reach(e: Edges, a: string, b: string) {
    exists p :: |p| >= 2 && PathBetween(e, p, a, b)
  }

  /** b is reached from a along at most n edges (so a itself is, for every n). */
  ghost predicate ReachWithin(e: Edges, n: nat, a: string, b: string) {
    exists p :: |p| <= n + 1 && PathBetween(e, p, a, b)
  }

  ghost predicate Acyclic(e: Edges) {
    forall x :: !Reach(e, x, x)
  }

  lemma EdgeReaches(e: Edges, a: string, b: string)
    requires (a, b) in e
    ensures Reach(e, a, b)
  {
    assert PathBetween(e, [a, b], a, b);
  }

  lemma PathConcat(e: Edges, p: seq<string>, q: seq<string>, a: string, b: string, c: string)
    requires PathBetween(e, p, a, b) && PathBetween(e, q, b, c)
    ensures PathBetween(e, p + q[1..], a, c)
  {
    var r := p + q[1..];
    forall i | 0 <= i < |r| - 1
      ensures (r[i], r[i + 1]) in e
    {
      if i < |p| - 1 {
        assert (p[i], p[i + 1]) in e;
      } else {
        assert r[i] == q[i - |p| + 1] && r[i + 1] == q[i - |p| + 2];
      }
    }
    if |q| > 1 {
      assert r[|r| - 1] == q[|q| - 1];
    }
  }

  lemma ReachTransitive(e: Edges, a: string, b: string, c: string)
    requires Reach(e, a, b) && Reach(e, b, c)
    ensures Reach(e, a, c)
  {
    var p :| |p| >= 2 && PathBetween(e, p, a, b);
    var q :| |q| >= 2 && PathBetween(e, q, b, c);
    PathConcat(e, p, q, a, b, c);
    assert |p + q[1..]| >= 2;
  }

  /** Every non-trivial path starts with an edge. */
  lemma FirstStep(e: Edges, a: string, b: string) returns (m: string)
    requires Reach(e, a, b)
    ensures (a, m) in e && (m == b || Reach(e, m, b))
  {
    var p :| |p| >= 2 && PathBetween(e, p, a, b);
    m := p[1];
    assert (p[0], p[1]) in e;
    if |p| > 2 {
      assert PathBetween(e, p[1..], m, b);
    }
  }

  /** Whatever contains a and is closed under edges contains everything a reaches. */
  lemma {:induction false} ClosedContainsPath(e: Edges, s: iset<string>, p: seq<string>)
    requires Path(e, p) && p[0] in s
    requires forall x, y | (x, y) in e && x in s :: y in s
    ensures p[|p| - 1] in s
    decreases |p|
  {
    if |p| > 1 {
      assert (p[0], p[1]) in e;
      ClosedContainsPath(e, s, p[1..]);
    }
  }

  /** Successors of a closed set stay in it, in the form used for reachability. */
  lemma ClosedContainsReach(e: Edges, s: iset<string>, a: string, b: string)
    requires Reach(e, a, b)
    requires forall y | (a, y) in e :: y in s
    requires forall x, y | (x, y) in e && x in s :: y in s
    ensures b in s
  {
    var p :| |p| >= 2 && PathBetween(e, p, a, b);
    assert (p[0], p[1]) in e;
    ClosedContainsPath(e, s, p[1..]);
  }

  /** If each edge of e is a (non-trivial) path of f, then reachability in e carries over to f. */
  lemma ReachEmbeds(e: Edges, f: Edges, a: string, b: string)
    requires Reach(e, a, b)
    requires forall x, y | (x, y) in e :: Reach(f, x, y)
    ensures Reach(f, a, b)
  {
    var s := iset x | Reach(f, a, x);
    forall x, y | (x, y) in e && x in s
      ensures y in s
    {
      ReachTransitive(f, a, x, y);
    }
    ClosedContainsReach(e, s, a, b);
  }

  // ---- Depth-first search: what the finished ("black") set of a traversal satisfies ----

  ghost predicate Closed(e: Edges, s: set<string>) {
    forall x, y | (x, y) in e && x in s :: y in s
  }

  /** No edge leaves s and no cycle runs through s. */
  ghost predicate Settled(e: Edges, s: set<string>) {
    Closed(e, s) && forall x | x in s :: !Reach(e, x, x)
  }

  /** A node whose successors are all settled becomes settled itself. */
  lemma SettleNode(e: Edges, s: set<string>, n: string)
    requires Settled(e, s) && n !in s
    requires forall y | (n, y) in e :: y in s
    ensures Settled(e, s + {n})
  {
    if Reach(e, n, n) {
      ClosedContainsReach(e, (iset x | x in s), n, n);
      assert false;
    }
  }

  lemma SettledEverywhere(e: Edges, s: set<string>)
    requires Settled(e, s) && forall x, y | (x, y) in e :: x in s
    ensures Acyclic(e)
  {
    forall x
      ensures !Reach(e, x, x)
    {
      if Reach(e, x, x) {
        var m := FirstStep(e, x, x);
      }
    }
  }

  // ---- Finite acyclic graphs have a minimal element in every non-empty set ----

  lemma {:induction false} MinimalElement(e: Edges, s: set<string>) returns (m: string)
    requires Acyclic(e) && s != {}
    ensures m in s && forall y | (m, y) in e :: y !in s
    decreases s
  {
    var x :| x in s;
    var below := set y | y in s && Reach(e, x, y);
    assert x !in below;
    if below == {} {
      m := x;
      forall y | (x, y) in e
        ensures y !in s
      {
        EdgeReaches(e, x, y);
        assert y !in below;
      }
    } else {
      assert below < s;
      m := MinimalElement(e, below);
      forall y | (m, y) in e
        ensures y !in s
      {
        assert y !in below;
        EdgeReaches(e, m, y);
        ReachTransitive(e, x, m, y);
      }
    }
  }

  // ---- Breadth-first search: what n rounds of frontier expansion compute ----

  ghost function Successors(e: Edges, s: set<string>): set<string> {
    set x | x in e && x.0 in s :: x.1
  }

  /** The nodes met after n rounds of frontier expansion from s. */
  ghost function Ball(e: Edges, s: set<string>, n: nat): set<string>
    decreases n
  {
    if n == 0 then s else Ball(e, s, n - 1) + Successors(e, Ball(e, s, n - 1))
  }

  lemma {:induction false} BallMonotone(e: Edges, s: set<string>, m: nat, n: nat)
    requires m <= n
    ensures Ball(e, s, m) <= Ball(e, s, n)
    decreases n
  {
    if m < n {
      BallMonotone(e, s, m, n - 1);
    }
  }

  lemma ClosedHoldsSuccessors(e: Edges, s: set<string>)
    requires Closed(e, s)
    ensures Successors(e, s) <= s
  {
  }

  /** Once a round adds nothing, no later round does. */
  lemma {:induction false} BallStable(e: Edges, s: set<string>, m: nat, n: nat)
    requires m <= n && Closed(e, Ball(e, s, m))
    ensures Ball(e, s, n) == Ball(e, s, m)
    decreases n
  {
    if m < n {
      BallStable(e, s, m, n - 1);
      var ball := Ball(e, s, n - 1);
      assert Closed(e, ball);
      ClosedHoldsSuccessors(e, ball);
      assert Ball(e, s, n) == ball + Successors(e, ball);
    }
  }

  lemma {:induction false} PathEndsInBall(e: Edges, s: set<string>, n: nat, p: seq<string>)
    requires Path(e, p) && p[0] in s && |p| <= n + 1
    ensures p[|p| - 1] in Ball(e, s, n)
    decreases n
  {
    if |p| == 1 {
      BallMonotone(e, s, 0, n);
    } else {
      var q := p[..|p| - 1];
      assert forall i | 0 <= i < |q| - 1 :: (q[i], q[i + 1]) == (p[i], p[i + 1]);
      PathEndsInBall(e, s, n - 1, q);
      assert (p[|p| - 2], p[|p| - 1]) in e;
    }
  }

  lemma {:induction false} BallHasPath(e: Edges, s: set<string>, n: nat, b: string) returns (p: seq<string>)
    requires b in Ball(e, s, n)
    ensures Path(e, p) && p[0] in s && |p| <= n + 1 && p[|p| - 1] == b
    decreases n
  {
    if n == 0 {
      p := [b];
    } else if b in Ball(e, s, n - 1) {
      p := BallHasPath(e, s, n - 1, b);
    } else {
      var a :| a in Ball(e, s, n - 1) && (a, b) in e;
      var q := BallHasPath(e, s, n - 1, a);
      p := q + [b];
      forall i | 0 <= i < |p| - 1
        ensures (p[i], p[i + 1]) in e
      {
        if i < |q| - 1 {
          assert (q[i], q[i + 1]) in e;
        }
      }
    }
  }

  /** n rounds of expansion find exactly what lies within n edges of the start. */
  lemma BallIsBoundedReach(e: Edges, s: set<string>, n: nat, b: string)
    ensures b in Ball(e, s, n) <==> exists a | a in s :: ReachWithin(e, n, a, b)
  {
    if b in Ball(e, s, n) {
      var p := BallHasPath(e, s, n, b);
      assert PathBetween(e, p, p[0], b);
      assert ReachWithin(e, n, p[0], b);
    }
    if a :| a in s && ReachWithin(e, n, a, b) {
      var p :| |p| <= n + 1 && PathBetween(e, p, a, b);
      PathEndsInBall(e, s, n, p);
    }
  }

  lemma SuccessorsStay(e: Edges, v: set<string>, s: set<string>)
    requires forall x, y | (x, y) in e :: y in v
    ensures Successors(e, s) <= v
  {
    forall z | z in Successors(e, s)
      ensures z in v
    {
      var x :| x in e && x.0 in s && x.1 == z;
      assert (x.0, x.1) in e;
    }
  }

  lemma Strict(a: set<string>, b: set<string>)
    requires a < b
    ensures |a| < |b|
  {
    assert b == a + (b - a);
    assert |b| == |a| + |b - a|;
  }

  lemma {:induction false} BallGrowsOrCloses(e: Edges, s: set<string>, v: set<string>, n: nat)
    requires s <= v && forall x, y | (x, y) in e :: y in v
    ensures Ball(e, s, n) <= v
    ensures Closed(e, Ball(e, s, n)) || |Ball(e, s, n)| >= |s| + n
    decreases n
  {
    if n > 0 {
      BallGrowsOrCloses(e, s, v, n - 1);
      var b := Ball(e, s, n - 1);
      var next := b + Successors(e, b);
      assert Ball(e, s, n) == next;
      SuccessorsStay(e, v, b);
      if Closed(e, b) {
        ClosedHoldsSuccessors(e, b);
        assert next == b;
      } else {
        var x, y :| (x, y) in e && x in b && y !in b;
        assert (x, y).1 in Successors(e, b);
        Strict(b, next);
      }
    }
  }

  lemma SubsetSize(a: set<string>, b: set<string>)
    requires a <= b
    ensures |a| <= |b| && (a != b ==> |a| < |b|)
  {
    if a != b {
      Strict(a, b);
    }
  }

  /** How deep a search may go that is given a bound of any sign. */
  function Depth(maxDepth: int): nat {
    if maxDepth < 0 then 0 else maxDepth
  }

  lemma {:induction false} BallEmpty(e: Edges, n: nat)
    ensures Ball(e, {}, n) == {}
    decreases n
  {
    if n > 0 {
      BallEmpty(e, n - 1);
    }
  }

  /** Searching at least as deep as there are nodes is searching without a bound. */
  lemma DeepBallIsClosure(e: Edges, s: set<string>, v: set<string>, n: nat, b: string)
    requires s <= v && forall x, y | (x, y) in e :: y in v
    requires n >= |v|
    ensures b in Ball(e, s, n) <==> (b in s || exists a | a in s :: Reach(e, a, b))
  {
    BallGrowsOrCloses(e, s, v, n);
    SubsetSize(Ball(e, s, n), v);
    if s == {} {
      BallEmpty(e, n);
    } else {
      Strict({}, s);
    }
    var ball := Ball(e, s, n);
    assert Closed(e, ball);
    BallMonotone(e, s, 0, n);
    if a :| a in s && Reach(e, a, b) {
      ClosedContainsReach(e, (iset x | x in ball), a, b);
    }
    if b in ball && b !in s {
      var p := BallHasPath(e, s, n, b);
      assert PathBetween(e, p, p[0], b) && |p| >= 2;
    }
  }

  // ---- Frontier search: only the nodes found last are expanded ----

  /** What the nodes behind the frontier point at has been found. */
  ghost predicate InnerClosed(e: Edges, found: set<string>, frontier: set<string>) {
    forall x, y | (x, y) in e && x in found - frontier :: y in found
  }

  ghost predicate SearchedTo(e: Edges, s: set<string>, n: nat, found: set<string>, frontier: set<string>) {
    frontier <= found && found == Ball(e, s, n) && InnerClosed(e, found, frontier)
  }

  lemma RoundSearches(e: Edges, s: set<string>, n: nat, found: set<string>, frontier: set<string>, fresh': set<string>)
    requires SearchedTo(e, s, n, found, frontier)
    requires found + fresh' == found + Successors(e, found)
    ensures SearchedTo(e, s, n + 1, found + fresh', fresh')
  {
    forall x, y | (x, y) in e && x in found + fresh' - fresh'
      ensures y in found + fresh'
    {
      assert (x, y).1 in Successors(e, found);
    }
  }

  /** The search may stop at the wanted depth, or as soon as a round has found nothing. */
  lemma SearchEnds(e: Edges, s: set<string>, n: nat, depth: nat, found: set<string>, frontier: set<string>)
    requires SearchedTo(e, s, n, found, frontier) && n <= depth && (n == depth || frontier == {})
    ensures found == Ball(e, s, depth)
    ensures forall b :: b in found <==> exists a | a in s :: ReachWithin(e, depth, a, b)
  {
    if n < depth {
      BallStable(e, s, n, depth);
    }
    forall b
      ensures b in found <==> exists a | a in s :: ReachWithin(e, depth, a, b)
    {
      BallIsBoundedReach(e, s, depth, b);
    }
  }
}
