/**
 Dependency graphs: which walks and cycles they have, and how an acyclic one can be ranked.
 */
module DriverGraph {

  /** The dependencies of every known driver, in the order the driver lists them. A listed
      name that is no key is no edge. */
  type Graph = map<string, seq<string>>

  predicate Edge(g: Graph, a: string, b: string) {
    a in g && b in g && b in g[a]
  }

  /** A non-empty sequence of known drivers, each depending on the next. */
  predicate Walk(g: Graph, p: seq<string>) {
    && |p| > 0
    && (forall x | x in p :: x in g)
    && (forall i | 0 <= i < |p| - 1 :: Edge(g, p[i], p[i + 1]))
  }

  predicate Cycle(g: Graph, p: seq<string>) {
    |p| > 1 && Walk(g, p) && p[0] == p[|p| - 1]
  }

  ghost predicate HasCycle(g: Graph) {
    exists p :: Cycle(g, p)
  }

  /** Every driver comes after all its known dependencies. */
  predicate Ordered(g: Graph, order: seq<string>) {
    forall i | 0 <= i < |order| ::
      order[i] in g && forall d | d in g[order[i]] && d in g :: d in order[..i]
  }

  /** Every edge goes down. */
  ghost predicate Ranks(g: Graph, rank: map<string, nat>) {
    && rank.Keys == g.Keys
    && (forall a, b | Edge(g, a, b) :: rank[b] < rank[a])
  }

  lemma {:induction false} WalkDescends(g: Graph, rank: map<string, nat>, p: seq<string>, i: nat)
    requires Ranks(g, rank) && Walk(g, p) && i < |p|
    ensures rank[p[i]] + i <= rank[p[0]]
  {
    if i > 0 {
      WalkDescends(g, rank, p, i - 1);
      assert Edge(g, p[i - 1], p[i - 1 + 1]);
    }
  }

  lemma RankedHasNoCycle(g: Graph, rank: map<string, nat>)
    requires Ranks(g, rank)
    ensures !HasCycle(g)
  {
    forall p | Cycle(g, p) ensures false {
      WalkDescends(g, rank, p, |p| - 1);
    }
  }

  /** Where a name first occurs. */
  function First(order: seq<string>, x: string): (i: nat)
    requires x in order
    ensures i < |order| && order[i] == x && x !in order[..i]
  {
    if order[0] == x then 0 else 1 + First(order[1..], x)
  }

  /** An order of all drivers after their dependencies rules cycles out. */
  lemma OrderedHasNoCycle(g: Graph, order: seq<string>)
    requires Ordered(g, order) && (forall x | x in g :: x in order)
    ensures !HasCycle(g)
  {
    var rank := map x | x in g :: First(order, x);
    forall a, b | Edge(g, a, b) ensures rank[b] < rank[a] {
      var i := First(order, a);
      assert b in order[..i];
      var j :| 0 <= j < i && order[j] == b;
      assert First(order, b) <= j;
    }
    RankedHasNoCycle(g, rank);
  }

  // ----- An acyclic graph can be ranked -----

  /** A sequence longer than the set it draws from repeats itself. */
  lemma {:induction false} Pigeonhole(p: seq<string>, s: set<string>) returns (i: nat, j: nat)
    requires |p| > |s| && forall x | x in p :: x in s
    ensures i < j < |p| && p[i] == p[j]
    decreases |p|
  {
    var last := |p| - 1;
    if k :| 0 <= k < last && p[k] == p[last] {
      return k, last;
    }
    assert p[last] in s;
    forall x | x in p[..last] ensures x in s - {p[last]} {
      assert x in p;
    }
    i, j := Pigeonhole(p[..last], s - {p[last]});
  }

  ghost predicate HasNext(g: Graph, s: set<string>, a: string) {
    exists b :: b in s && Edge(g, a, b)
  }

  lemma WalkExtends(g: Graph, x: string, q: seq<string>)
    requires Walk(g, q) && Edge(g, x, q[0])
    ensures Walk(g, [x] + q)
  {
    var p := [x] + q;
    forall i | 0 <= i < |p| - 1 ensures Edge(g, p[i], p[i + 1]) {
      if i > 0 { assert Edge(g, q[i - 1], q[i - 1 + 1]); }
    }
  }

  /** From a node of a set in which every node has a successor one can walk forever. */
  lemma {:induction false} LongWalk(g: Graph, s: set<string>, x: string, n: nat) returns (p: seq<string>)
    requires x in s && s <= g.Keys && forall a | a in s :: HasNext(g, s, a)
    ensures Walk(g, p) && |p| == n + 1 && p[0] == x && forall y | y in p :: y in s
    decreases n
  {
    if n == 0 {
      p := [x];
    } else {
      assert HasNext(g, s, x);
      var y :| y in s && Edge(g, x, y);
      var q := LongWalk(g, s, y, n - 1);
      WalkExtends(g, x, q);
      p := [x] + q;
    }
  }

  /** A walk that meets a driver twice runs around a cycle in between. */
  lemma MeetingTwiceIsCycle(g: Graph, p: seq<string>, i: nat, j: nat)
    requires Walk(g, p) && i < j < |p| && p[i] == p[j]
    ensures Cycle(g, p[i..j + 1])
  {
    var q := p[i..j + 1];
    forall k | 0 <= k < |q| - 1 ensures Edge(g, q[k], q[k + 1]) {
      assert Edge(g, p[i + k], p[i + k + 1]);
    }
  }

  /** Every non-empty set of an acyclic graph has a node without successor in it. */
  lemma HasSink(g: Graph, s: set<string>) returns (x: string)
    requires !HasCycle(g) && s != {} && s <= g.Keys
    ensures x in s && !HasNext(g, s, x)
  {
    if a :| a in s && !HasNext(g, s, a) {
      return a;
    }
    var start :| start in s;
    var p := LongWalk(g, s, start, |s|);
    var i, j := Pigeonhole(p, s);
    MeetingTwiceIsCycle(g, p, i, j);
    x := start;
  }

  lemma {:induction false} RankSubset(g: Graph, s: set<string>) returns (rank: map<string, nat>)
    requires !HasCycle(g) && s <= g.Keys
    ensures rank.Keys == s
    ensures forall a, b | a in s && b in s && Edge(g, a, b) :: rank[b] < rank[a]
    decreases |s|
  {
    if s == {} {
      rank := map[];
    } else {
      var x := HasSink(g, s);
      var rest := RankSubset(g, s - {x});
      rank := map y | y in s :: if y == x then 0 else rest[y] + 1;
      assert forall b | b in s :: !Edge(g, x, b);
    }
  }

  /** An acyclic graph can be ranked. */
  lemma AcyclicIsRanked(g: Graph) returns (rank: map<string, nat>)
    requires !HasCycle(g)
    ensures Ranks(g, rank)
  {
    rank := RankSubset(g, g.Keys);
  }
}
