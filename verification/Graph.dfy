/** Reachability in a finite graph of class names, with a set of classes that a path avoids. */
module Graph {

  type Graph = map<string, set<string>>

  function Succ(g: Graph, n: string): set<string> {
    if n in g then g[n] else {}
  }

  ghost predicate Path(g: Graph, from: set<string>, avoid: set<string>, p: seq<string>) {
    && p != [] && p[0] in from
    && (forall i | 0 <= i < |p| - 1 :: p[i + 1] in Succ(g, p[i]))
    && (forall i | 0 <= i < |p| :: p[i] !in avoid)
  }

  /** Some path from one of these names to n avoids the names in avoid. */
  ghost predicate Reach(g: Graph, from: set<string>, avoid: set<string>, n: string) {
    exists p :: Path(g, from, avoid, p) && p[|p| - 1] == n
  }

  lemma ReachDirect(g: Graph, from: set<string>, avoid: set<string>, n: string)
    requires n in from && n !in avoid
    ensures Reach(g, from, avoid, n)
  {
    assert Path(g, from, avoid, [n]);
  }

  lemma ReachStep(g: Graph, from: set<string>, avoid: set<string>, m: string, n: string)
    requires m in from && m !in avoid && Reach(g, Succ(g, m), avoid, n)
    ensures Reach(g, from, avoid, n)
  {
    var p :| Path(g, Succ(g, m), avoid, p) && p[|p| - 1] == n;
    var q := [m] + p;
    assert forall i | 0 <= i < |q| - 1 :: q[i + 1] in Succ(g, q[i]);
    assert Path(g, from, avoid, q) && q[|q| - 1] == n;
  }

  lemma ReachExtend(g: Graph, from: set<string>, avoid: set<string>, m: string, n: string)
    requires Reach(g, from, avoid, m) && n in Succ(g, m) && n !in avoid
    ensures Reach(g, from, avoid, n)
  {
    var p :| Path(g, from, avoid, p) && p[|p| - 1] == m;
    var q := p + [n];
    assert forall i | 0 <= i < |q| - 1 :: q[i + 1] in Succ(g, q[i]);
    assert Path(g, from, avoid, q) && q[|q| - 1] == n;
  }

  lemma ReachMonotone(g: Graph, from: set<string>, avoid: set<string>, g': Graph, from': set<string>,
                      avoid': set<string>,
                      n: string)
    requires Reach(g, from, avoid, n)
    requires from <= from' && avoid' <= avoid && forall m | m in g :: g[m] <= Succ(g', m)
    ensures Reach(g', from', avoid', n)
  {
    var p :| Path(g, from, avoid, p) && p[|p| - 1] == n;
    assert Path(g', from', avoid', p);
  }

  lemma ReachUnion(g: Graph, a: set<string>, b: set<string>, avoid: set<string>, n: string)
    ensures Reach(g, a + b, avoid, n) <==> Reach(g, a, avoid, n) || Reach(g, b, avoid, n)
  {
    if Reach(g, a + b, avoid, n) {
      var p :| Path(g, a + b, avoid, p) && p[|p| - 1] == n;
      assert Path(g, a, avoid, p) || Path(g, b, avoid, p);
    }
    if Reach(g, a, avoid, n) {
      ReachMonotone(g, a, avoid, g, a + b, avoid, n);
    }
    if Reach(g, b, avoid, n) {
      ReachMonotone(g, b, avoid, g, a + b, avoid, n);
    }
  }

  /** The last position of x in p. */
  lemma {:induction false} LastOccurrence(p: seq<string>, x: string) returns (i: nat)
    requires x in p
    ensures i < |p| && p[i] == x && x !in p[i + 1..]
  {
    if p[|p| - 1] == x {
      i := |p| - 1;
    } else {
      i := LastOccurrence(p[..|p| - 1], x);
      assert p[i + 1..] == p[..|p| - 1][i + 1..] + [p[|p| - 1]];
    }
  }

  /** Loops can be cut: what m reaches is m itself or is reached from its successors without
      coming back to m. */
  lemma LoopRemoval(g: Graph, avoid: set<string>, m: string, n: string)
    requires Reach(g, {m}, avoid, n)
    ensures n == m || Reach(g, Succ(g, m), avoid + {m}, n)
  {
    var p :| Path(g, {m}, avoid, p) && p[|p| - 1] == n;
    var i := LastOccurrence(p, m);
    var q := p[i + 1..];
    if q != [] {
      assert q[0] == p[i + 1] && q[|q| - 1] == n;
      forall j | 0 <= j < |q| - 1 ensures q[j + 1] in Succ(g, q[j]) {
        assert q[j] == p[i + 1 + j] && q[j + 1] == p[i + 1 + j + 1];
      }
      assert Path(g, Succ(g, m), avoid + {m}, q);
    }
  }

  /** A set of names that is closed under successors contains all it reaches. */
  lemma ReachStaysInside(g: Graph, from: set<string>, inside: set<string>, n: string)
    requires from <= inside && forall m | m in inside :: Succ(g, m) <= inside
    requires Reach(g, from, {}, n)
    ensures n in inside
  {
    var p :| Path(g, from, {}, p) && p[|p| - 1] == n;
    PathStaysInside(g, from, inside, p, |p| - 1);
  }

  lemma {:induction false} PathStaysInside(g: Graph, from: set<string>, inside: set<string>, p: seq<string>, i: nat)
    requires from <= inside && forall m | m in inside :: Succ(g, m) <= inside
    requires Path(g, from, {}, p) && i < |p|
    ensures p[i] in inside
  {
    if i > 0 {
      PathStaysInside(g, from, inside, p, i - 1);
    }
  }
}
