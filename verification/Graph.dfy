// The graph of groups in groups: an edge from a group to every group entered in
// it, whatever relation the entry names (GroupEdges, internal/storage/memory.go:728-747).
module Graph {
  import opened Text
  import opened Tokens
  import opened Tuples
  import opened Sort

  datatype Edge = Edge(parent: string, child: string)

  function EdgeOf(t: Tuple): Edge {
    Edge(t.objId, t.subjId)
  }

  function Edges(L: set<Tuple>): set<Edge> {
    set t | t in L && t.kind == Subgroup :: EdgeOf(t)
  }

  /** GroupEdges lists its edges by parent, then child. */
  function EdgeLeq(a: Edge, b: Edge): bool {
    if a.parent == b.parent then Leq(a.child, b.child) else Leq(a.parent, b.parent)
  }

  lemma EdgeLeqTotal()
    ensures IsTotalPreorder(EdgeLeq)
  {
    forall a, b ensures EdgeLeq(a, b) || EdgeLeq(b, a) {
      LeqTotal(a.parent, b.parent);
      LeqTotal(a.child, b.child);
    }
    forall a, b, c | EdgeLeq(a, b) && EdgeLeq(b, c) ensures EdgeLeq(a, c) {
      EdgeLeqTransitive(a, b, c);
    }
  }

  lemma EdgeLeqTransitive(a: Edge, b: Edge, c: Edge)
    requires EdgeLeq(a, b) && EdgeLeq(b, c)
    ensures EdgeLeq(a, c)
  {
    if a.parent == b.parent == c.parent {
      LeqTransitive(a.child, b.child, c.child);
    } else {
      LeqReflexive(a.parent);
      LeqReflexive(b.parent);
      LeqTransitive(a.parent, b.parent, c.parent);
      if a.parent == c.parent {
        LeqAntisymmetric(a.parent, b.parent);
      }
    }
  }

  lemma LeqReflexive(a: string)
    ensures Leq(a, a)
  {
    LeqTotal(a, a);
  }

  /** A walk down: each group holds the next one. */
  ghost predicate IsPath(E: set<Edge>, p: seq<string>) {
    p != [] && forall i :: 0 <= i < |p| - 1 ==> Edge(p[i], p[i + 1]) in E
  }

  ghost predicate Connects(E: set<Edge>, p: seq<string>, a: string, b: string) {
    IsPath(E, p) && p[0] == a && p[|p| - 1] == b
  }

  /** b is a, or lies somewhere below it. */
  ghost predicate Encloses(E: set<Edge>, a: string, b: string) {
    exists p :: Connects(E, p, a, b)
  }

  /** A walk of at least one edge back to where it started. */
  ghost predicate IsCycle(E: set<Edge>, p: seq<string>) {
    |p| >= 2 && IsPath(E, p) && p[0] == p[|p| - 1]
  }

  ghost predicate Acyclic(E: set<Edge>) {
    forall p :: !IsCycle(E, p)
  }

  /** The cycle runs along this edge. */
  ghost predicate PassesThrough(p: seq<string>, e: Edge) {
    exists i :: 0 <= i < |p| - 1 && Edge(p[i], p[i + 1]) == e
  }

  lemma PathMonotone(E1: set<Edge>, E2: set<Edge>, p: seq<string>)
    requires E1 <= E2 && IsPath(E1, p)
    ensures IsPath(E2, p)
  {
  }

  /** A set of groups closed under going down holds everything below its members. */
  lemma {:induction false} ClosedEncloses(E: set<Edge>, S: set<string>, p: seq<string>)
    requires IsPath(E, p) && p[0] in S
    requires forall e :: e in E && e.parent in S ==> e.child in S
    ensures p[|p| - 1] in S
  {
    if |p| > 1 {
      var rest := p[1..];
      assert forall i :: 0 <= i < |rest| ==> rest[i] == p[i + 1];
      assert Edge(p[0], p[1]) in E;
      ClosedEncloses(E, S, rest);
    }
  }

  // ── Adding an edge ──────────────────────────────────────────────────────────

  /** A walk to the edge's parent has no use for the edge: it can stop on first arriving there. */
  lemma {:induction false} WalkWithoutEdge(E: set<Edge>, g: string, m: string, p: seq<string>) returns (q: seq<string>)
    requires IsPath(E + {Edge(g, m)}, p) && p[|p| - 1] == g
    ensures Connects(E, q, p[0], g)
  {
    if p[0] == g {
      q := [g];
    } else {
      var rest := p[1..];
      assert forall i :: 0 <= i < |rest| ==> rest[i] == p[i + 1];
      q := WalkWithoutEdge(E, g, m, rest);
      assert Edge(p[0], p[1]) in E;
      q := [p[0]] + q;
    }
  }

  lemma PathSlice(E: set<Edge>, p: seq<string>, i: nat, j: nat)
    requires IsPath(E, p) && i < j <= |p|
    ensures IsPath(E, p[i..j])
  {
    forall k | 0 <= k < j - i - 1 ensures Edge(p[i..j][k], p[i..j][k + 1]) in E {
      assert p[i..j][k] == p[i + k] && p[i..j][k + 1] == p[i + k + 1];
    }
  }

  lemma PathJoin(E: set<Edge>, a: seq<string>, b: seq<string>)
    requires IsPath(E, a) && IsPath(E, b) && Edge(a[|a| - 1], b[0]) in E
    ensures IsPath(E, a + b)
  {
    forall k | 0 <= k < |a + b| - 1 ensures Edge((a + b)[k], (a + b)[k + 1]) in E {
      if k >= |a| {
        assert (a + b)[k] == b[k - |a|] && (a + b)[k + 1] == b[k - |a| + 1];
      }
    }
  }

  /** From the far end of an edge on a cycle there is a walk around to its near end. */
  lemma WayAround(E: set<Edge>, p: seq<string>, i: nat) returns (back: seq<string>)
    requires IsCycle(E, p) && i < |p| - 1
    ensures Connects(E, back, p[i + 1], p[i])
  {
    back := p[i + 1..|p|];
    PathSlice(E, p, i + 1, |p|);
    if i > 0 {
      PathSlice(E, p, 1, i + 1);
      PathJoin(E, back, p[1..i + 1]);
      back := back + p[1..i + 1];
    }
  }

  /** If the new child does not contain the parent, no cycle runs along the new edge, whatever cycles there were. */
  lemma NoCycleThroughNewEdge(E: set<Edge>, g: string, m: string, p: seq<string>)
    requires !Encloses(E, m, g)
    requires IsCycle(E + {Edge(g, m)}, p)
    ensures !PassesThrough(p, Edge(g, m))
  {
    if PassesThrough(p, Edge(g, m)) {
      var i :| 0 <= i < |p| - 1 && Edge(p[i], p[i + 1]) == Edge(g, m);
      var back := WayAround(E + {Edge(g, m)}, p, i);
      var q := WalkWithoutEdge(E, g, m, back);
      assert Encloses(E, m, g);
    }
  }

  /** A cycle that avoids an edge is one without it. */
  lemma CycleWithoutEdge(E: set<Edge>, e: Edge, p: seq<string>)
    requires IsCycle(E + {e}, p) && !PassesThrough(p, e)
    ensures IsCycle(E, p)
  {
    forall i | 0 <= i < |p| - 1 ensures Edge(p[i], p[i + 1]) in E {
      assert Edge(p[i], p[i + 1]) in E + {e};
    }
  }

  /** An edge keeps the graph acyclic exactly when its child does not contain its parent. */
  lemma AcyclicWithEdge(E: set<Edge>, g: string, m: string)
    requires Acyclic(E)
    ensures Acyclic(E + {Edge(g, m)}) <==> !Encloses(E, m, g)
  {
    if Encloses(E, m, g) {
      var p :| Connects(E, p, m, g);
      var cycle := [g] + p;
      PathMonotone(E, E + {Edge(g, m)}, p);
      assert IsCycle(E + {Edge(g, m)}, cycle);
    } else {
      forall p | IsCycle(E + {Edge(g, m)}, p) ensures false {
        NoCycleThroughNewEdge(E, g, m, p);
        CycleWithoutEdge(E, Edge(g, m), p);
      }
    }
  }
}
