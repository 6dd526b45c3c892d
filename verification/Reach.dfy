/** Reachability along the edges of a graph of names. */
module Reach {
  type Edges = (string, string) -> bool

  ghost predicate Walk(edge: Edges, p: seq<string>) {
    forall i :: 0 <= i < |p| - 1 ==> edge(p[i], p[i + 1])
  }

  ghost predicate Reaches(edge: Edges, a: string, b: string) {
    exists p :: |p| > 0 && p[0] == a && p[|p| - 1] == b && Walk(edge, p)
  }

  ghost predicate Closed(edge: Edges, s: set<string>) {
    forall a, b :: a in s && edge(a, b) ==> b in s
  }

  lemma ReachesSelf(edge: Edges, a: string)
    ensures Reaches(edge, a, a)
  {
    assert Walk(edge, [a]);
  }

  lemma ReachesOn(edge: Edges, a: string, b: string, c: string)
    requires Reaches(edge, a, b) && edge(b, c)
    ensures Reaches(edge, a, c)
  {
    var p :| |p| > 0 && p[0] == a && p[|p| - 1] == b && Walk(edge, p);
    assert Walk(edge, p + [c]);
  }

  lemma ReachesFrom(edge: Edges, a: string, b: string, c: string)
    requires edge(a, b) && Reaches(edge, b, c)
    ensures Reaches(edge, a, c)
  {
    var p :| |p| > 0 && p[0] == b && p[|p| - 1] == c && Walk(edge, p);
    var q := [a] + p;
    forall i | 0 <= i < |q| - 1
      ensures edge(q[i], q[i + 1])
    {
      assert i > 0 ==> edge(p[i - 1], p[(i - 1) + 1]);
    }
    assert q[0] == a && q[|q| - 1] == c;
  }

  /** A closed set holds everything its members reach. */
  lemma ClosedHolds(edge: Edges, s: set<string>, a: string, b: string)
    requires Closed(edge, s) && a in s && Reaches(edge, a, b)
    ensures b in s
  {
    var p :| |p| > 0 && p[0] == a && p[|p| - 1] == b && Walk(edge, p);
    ClosedAlong(edge, s, p, |p| - 1);
  }

  lemma {:induction false} ClosedAlong(edge: Edges, s: set<string>, p: seq<string>, n: nat)
    requires Closed(edge, s) && n < |p| && p[0] in s && Walk(edge, p)
    ensures p[n] in s
  {
    if n > 0 {
      ClosedAlong(edge, s, p, n - 1);
      assert edge(p[n - 1], p[(n - 1) + 1]);
    }
  }

  /** What a name reaches: itself, and what the ends of its edges reach. */
  lemma ReachesVia(edge: Edges, a: string, c: string)
    ensures Reaches(edge, a, c) <==> a == c || exists b :: edge(a, b) && Reaches(edge, b, c)
  {
    ReachesSelf(edge, a);
    if Reaches(edge, a, c) && a != c {
      var p :| |p| > 0 && p[0] == a && p[|p| - 1] == c && Walk(edge, p);
      var q := p[1..];
      forall i | 0 <= i < |q| - 1
        ensures edge(q[i], q[i + 1])
      {
        assert edge(p[i + 1], p[(i + 1) + 1]);
      }
      assert q[0] == p[1] && q[|q| - 1] == c && edge(p[0], p[0 + 1]);
      assert Reaches(edge, p[1], c);
    }
    if b :| edge(a, b) && Reaches(edge, b, c) {
      ReachesFrom(edge, a, b, c);
    }
  }
}
