// The group tree of a source: its top, what a group holds, and the shortest way
// down to a group (internal/groupmgmt/browse.go:81-157).
module Browse {
  import opened Wrappers
  import opened Sequences
  import opened Text
  import opened Sort
  import opened Graph

  /** What a page sees: every known group's source name, and each group's parents and children in the graph. */
  datatype Tree = Tree(sourceOf: map<string, string>, parents: map<string, seq<string>>,
                       children: map<string, seq<string>>)

  function ListAt(lists: map<string, seq<string>>, id: string): seq<string> {
    if id in lists then lists[id] else []
  }

  /** The source's name of a group; a group nobody knows has the empty one. */
  function SourceName(tree: Tree, id: string): string {
    if id in tree.sourceOf then tree.sourceOf[id] else ""
  }

  /** p holds id, and belongs to the source. */
  predicate IsUp(tree: Tree, source: string, id: string, p: string) {
    p in ListAt(tree.parents, id) && SourceName(tree, p) == source
  }

  /** No group of the source holds id. */
  ghost predicate IsTop(tree: Tree, source: string, id: string) {
    forall p :: !IsUp(tree, source, id, p)
  }

  /** Groups of the source, each held by the one before it. */
  ghost predicate IsWayDown(tree: Tree, source: string, w: seq<string>) {
    w != [] && forall i :: 0 <= i < |w| - 1 ==> IsUp(tree, source, w[i + 1], w[i])
  }

  ghost predicate IsWayFromTop(tree: Tree, source: string, w: seq<string>, g: string) {
    IsWayDown(tree, source, w) && w[|w| - 1] == g && IsTop(tree, source, w[0])
  }

  /** Ids are never empty, which is what ends a way in the code. */
  predicate IdsNamed(tree: Tree) {
    forall id :: id in tree.parents ==> "" !in tree.parents[id]
  }

  // ── The listings ────────────────────────────────────────────────────────────

  /** The groups Browse lists for a source. */
  ghost predicate InTop(tree: Tree, source: string, id: string) {
    id in tree.sourceOf && SourceName(tree, id) == source && IsTop(tree, source, id)
  }

  /** The groups Browse lists for a parent. */
  predicate InParent(tree: Tree, parent: string, id: string) {
    id in ListAt(tree.children, parent) && id in tree.sourceOf
  }

  ghost predicate ListsChildren(children: map<string, seq<string>>, E: set<Edge>) {
    forall p, c :: c in ListAt(children, p) <==> Edge(p, c) in E
  }

  ghost predicate ListsParents(parents: map<string, seq<string>>, E: set<Edge>) {
    forall p, c :: p in ListAt(parents, c) <==> Edge(p, c) in E
  }

  /** The two maps Browse builds are the graph, read both ways. */
  ghost predicate BuiltFrom(tree: Tree, E: set<Edge>) {
    ListsChildren(tree.children, E) && ListsParents(tree.parents, E)
  }

  lemma OneMoreChild(children: map<string, seq<string>>, E: set<Edge>, e: Edge)
    requires ListsChildren(children, E)
    ensures ListsChildren(children[e.parent := ListAt(children, e.parent) + [e.child]], E + {e})
  {
  }

  ghost predicate ListedOnce(lists: map<string, seq<string>>) {
    forall id :: id in lists ==> NoDuplicates(lists[id])
  }

  /** An edge not seen before leaves no child listed twice. */
  lemma OneMoreOnce(children: map<string, seq<string>>, E: set<Edge>, e: Edge)
    requires ListsChildren(children, E) && ListedOnce(children) && e !in E
    ensures ListedOnce(children[e.parent := ListAt(children, e.parent) + [e.child]])
  {
    var held := ListAt(children, e.parent);
    assert e.child !in held;
    forall i, j | 0 <= i < j < |held + [e.child]| ensures (held + [e.child])[i] != (held + [e.child])[j] {
      assert i < |held| && held[i] in held;
    }
  }

  lemma OneMoreParent(parents: map<string, seq<string>>, E: set<Edge>, e: Edge)
    requires ListsParents(parents, E)
    ensures ListsParents(parents[e.child := ListAt(parents, e.child) + [e.parent]], E + {e})
  {
  }

  method BuildTree(edges: seq<Edge>, sourceOf: map<string, string>) returns (tree: Tree)
    ensures BuiltFrom(tree, Elements(edges)) && tree.sourceOf == sourceOf
    ensures NoDuplicates(edges) ==> ListedOnce(tree.children)
  {
    var children, parents: map<string, seq<string>> := map[], map[];
    ghost var E: set<Edge> := {};
    for i := 0 to |edges|
      invariant ListsChildren(children, E) && ListsParents(parents, E) && E == Elements(edges[..i])
      invariant NoDuplicates(edges) ==> ListedOnce(children)
    {
      var e := edges[i];
      TakeMore(edges, i);
      ElementsConcat(edges[..i], [e]);
      OneMoreChild(children, E, e);
      if NoDuplicates(edges) {
        assert e !in E;
        OneMoreOnce(children, E, e);
      }
      OneMoreParent(parents, E, e);
      children := children[e.parent := ListAt(children, e.parent) + [e.child]];
      parents := parents[e.child := ListAt(parents, e.child) + [e.parent]];
      E := E + {e};
    }
    assert edges[..|edges|] == edges;
    return Tree(sourceOf, parents, children);
  }

  /** The same, as a filter over the groups there are. */
  ghost function AtTop(tree: Tree, source: string): string -> bool {
    id => SourceName(tree, id) == source && IsTop(tree, source, id)
  }

  /** Browse with a source: its groups no group of the same source holds, in the order given. */
  method TopListing(tree: Tree, all: seq<string>, source: string) returns (out: seq<string>)
    requires forall id :: id in all <==> id in tree.sourceOf
    ensures out == Filter(all, AtTop(tree, source))
    ensures forall id :: id in out <==> InTop(tree, source, id)
  {
    out := [];
    for i := 0 to |all|
      invariant out == Filter(all[..i], AtTop(tree, source))
    {
      FilterMore(all, i, AtTop(tree, source));
      if SourceName(tree, all[i]) == source {
        var ups := SameSource(tree, source, all[i]);
        assert ups == [] <==> IsTop(tree, source, all[i]) by {
          if ups != [] { assert IsUp(tree, source, all[i], ups[0]); }
        }
        if ups == [] {
          out := out + [all[i]];
        }
      }
    }
    assert all[..|all|] == all;
    FilterElements(all, AtTop(tree, source));
  }

  function Known(tree: Tree): string -> bool {
    id => id in tree.sourceOf
  }

  /** Browse with a parent: the known groups it holds, by id, each as often as it is listed. */
  method ParentListing(tree: Tree, parent: string) returns (result: Result<seq<string>>)
    ensures parent !in tree.sourceOf ==> result == Err(NotFound)
    ensures parent in tree.sourceOf ==>
              result.Ok? && IsSorted(result.value, Leq)
              && (forall id :: id in result.value <==> InParent(tree, parent, id))
              && (ListedOnce(tree.children) ==> NoDuplicates(result.value))
  {
    if parent !in tree.sourceOf {
      return Err(NotFound);
    }
    var held := ListAt(tree.children, parent);
    var out: seq<string> := [];
    for i := 0 to |held|
      invariant out == Filter(held[..i], Known(tree))
    {
      FilterMore(held, i, Known(tree));
      if held[i] in tree.sourceOf {
        out := out + [held[i]];
      }
    }
    assert held[..|held|] == held;
    FilterElements(held, Known(tree));
    LeqPreorder();
    SortedIsSorted(out, Leq);
    SortedElements(out);
    if NoDuplicates(held) {
      FilterNoDuplicates(held, Known(tree));
      ListsPermuted(out, Sorted(out, Leq), Elements(out));
    }
    return Ok(Sorted(out, Leq));
  }

  lemma SortedElements(s: seq<string>)
    ensures forall x :: x in Sorted(s, Leq) <==> x in s
  {
    LeqPreorder();
    SortedIsSorted(s, Leq);
    forall x ensures x in Sorted(s, Leq) <==> x in s {
      assert x in multiset(s) <==> x in multiset(Sorted(s, Leq));
    }
  }

  // ── The shortest way down ───────────────────────────────────────────────────

  /** The parents of a group that belong to the source, by id. */
  method SameSource(tree: Tree, source: string, id: string) returns (ups: seq<string>)
    ensures forall p :: p in ups <==> IsUp(tree, source, id, p)
  {
    var out: seq<string> := [];
    var parents := ListAt(tree.parents, id);
    for i := 0 to |parents|
      invariant forall p :: p in out <==> p in parents[..i] && SourceName(tree, p) == source
    {
      assert parents[..i + 1] == parents[..i] + [parents[i]];
      if SourceName(tree, parents[i]) == source {
        out := out + [parents[i]];
      }
    }
    assert parents[..|parents|] == parents;
    SortedElements(out);
    ups := Sorted(out, Leq);
  }

  /** What the search has met: each group's successor on the way down to g, and how far away g is. */
  ghost predicate Met(tree: Tree, source: string, g: string, next: map<string, string>, dist: map<string, nat>) {
    next.Keys == dist.Keys && g in next && next[g] == "" && dist[g] == 0 && g != ""
    && forall k :: k in next && k != g ==> Linked(tree, source, next, dist, k)
  }

  /** A group met leads to another one, which it holds and which is one nearer to g. */
  ghost predicate Linked(tree: Tree, source: string, next: map<string, string>, dist: map<string, nat>, k: string) {
    k in next && k in dist && k != "" && next[k] in next && next[k] in dist && next[k] != ""
    && IsUp(tree, source, next[k], k) && dist[k] == dist[next[k]] + 1
  }

  /**
   * The groups still to look at come in order of distance, at most one further than d; those looked at are no further
   * than d.
   */
  ghost predicate Ordered(dist: map<string, nat>, queue: seq<string>, done: set<string>, d: nat) {
    (forall i :: 0 <= i < |queue| ==> queue[i] in dist && d <= dist[queue[i]] <= d + 1)
    && (forall i, j :: 0 <= i <= j < |queue| ==> dist[queue[i]] <= dist[queue[j]])
    && (forall v :: v in done ==> v in dist && dist[v] <= d)
  }

  /** The distance of the group next in line. */
  ghost function Front(dist: map<string, nat>, queue: seq<string>): nat {
    if queue != [] && queue[0] in dist then dist[queue[0]] else 0
  }

  /** The groups looked at have parents of the source, all of them met, at most one further away. */
  ghost predicate Explored(tree: Tree, source: string, dist: map<string, nat>, done: set<string>) {
    forall v :: v in done ==>
      v in dist && !IsTop(tree, source, v)
      && forall p :: IsUp(tree, source, v, p) ==> p in dist && dist[p] <= dist[v] + 1
  }

  /** No way from a top is shorter than the distance of the group next in line. */
  lemma {:induction false} NoShorterWay(tree: Tree, source: string, g: string, next: map<string, string>,
                                        dist: map<string, nat>, done: set<string>, queue: seq<string>, w: seq<string>,
                                        k: nat)
    requires Met(tree, source, g, next, dist) && Explored(tree, source, dist, done)
    requires Elements(queue) == next.Keys - done
    requires queue != [] ==> Ordered(dist, queue, done, Front(dist, queue))
    requires IsWayFromTop(tree, source, w, g)
    requires k < |w| && w[|w| - 1 - k] in dist && dist[w[|w| - 1 - k]] <= k
    ensures queue != [] && dist[queue[0]] < |w|
    decreases |w| - k
  {
    var v := w[|w| - 1 - k];
    if v in done {
      assert !IsTop(tree, source, v);
      assert k < |w| - 1;
      assert IsUp(tree, source, v, w[|w| - 2 - k]);
      NoShorterWay(tree, source, g, next, dist, done, queue, w, k + 1);
    } else {
      assert v in Elements(queue);
      var i :| 0 <= i < |queue| && queue[i] == v;
    }
  }

  /** So while ways from a top exist the line is not empty, and none of them is shorter than its front. */
  lemma FrontIsShortest(tree: Tree, source: string, g: string, next: map<string, string>, dist: map<string, nat>,
                        done: set<string>, queue: seq<string>)
    requires Met(tree, source, g, next, dist) && Explored(tree, source, dist, done)
    requires Elements(queue) == next.Keys - done
    requires queue != [] ==> Ordered(dist, queue, done, Front(dist, queue))
    ensures forall w :: IsWayFromTop(tree, source, w, g) ==> queue != [] && queue[0] in dist && dist[queue[0]] < |w|
  {
    forall w | IsWayFromTop(tree, source, w, g) ensures queue != [] && queue[0] in dist && dist[queue[0]] < |w| {
      NoShorterWay(tree, source, g, next, dist, done, queue, w, 0);
    }
  }

  /** From a met group down to g, following the successors. */
  method WalkDown(tree: Tree, source: string, g: string, next: map<string, string>, ghost dist: map<string, nat>,
                  top: string)
    returns (path: seq<string>)
    requires Met(tree, source, g, next, dist) && top in next
    ensures IsWayDown(tree, source, path) && path[0] == top && path[|path| - 1] == g && |path| == dist[top] + 1
  {
    path := [top];
    var at := next[top];
    while at != ""
      invariant path != [] && path[|path| - 1] in next && at == next[path[|path| - 1]]
      invariant at != "" ==> at in next && |path| + dist[at] == dist[top]
      invariant |path| + dist[path[|path| - 1]] == dist[top] + 1
      invariant IsWayDown(tree, source, path) && path[0] == top
      decreases if at == "" then 0 else dist[at] + 1
    {
      assert IsUp(tree, source, at, path[|path| - 1]);
      path := path + [at];
      at := next[at];
    }
  }

  /** Every id the search can meet. */
  function Ancestors(tree: Tree, g: string): set<string> {
    {g} + set id, p | id in tree.parents && p in tree.parents[id] :: p
  }

  /** A way from a top than which there is no shorter one. */
  ghost predicate IsShortestWay(tree: Tree, source: string, path: seq<string>, g: string) {
    IsWayFromTop(tree, source, path, g) && forall w :: IsWayFromTop(tree, source, w, g) ==> |path| <= |w|
  }

  /** The state of the search between two groups looked at. */
  ghost predicate Searching(tree: Tree, source: string, g: string, next: map<string, string>, dist: map<string, nat>,
                            queue: seq<string>, done: set<string>) {
    Met(tree, source, g, next, dist) && Explored(tree, source, dist, done)
    && Lists(queue, next.Keys - done) && done <= next.Keys <= Ancestors(tree, g)
    && (queue != [] ==> Ordered(dist, queue, done, Front(dist, queue)))
  }

  /** A top that is next in line makes the way down from it a shortest one. */
  lemma SearchFinds(tree: Tree, source: string, g: string, next: map<string, string>, dist: map<string, nat>,
                    queue: seq<string>, done: set<string>, path: seq<string>)
    requires Searching(tree, source, g, next, dist, queue, done) && queue != []
    requires IsWayFromTop(tree, source, path, g) && |path| == dist[queue[0]] + 1
    ensures IsShortestWay(tree, source, path, g)
  {
    FrontIsShortest(tree, source, g, next, dist, done, queue);
  }

  /** With nobody left in line there is no way from a top. */
  lemma SearchFails(tree: Tree, source: string, g: string, next: map<string, string>, dist: map<string, nat>,
                    done: set<string>)
    requires Searching(tree, source, g, next, dist, [], done)
    ensures forall w :: !IsWayFromTop(tree, source, w, g)
  {
    FrontIsShortest(tree, source, g, next, dist, done, []);
  }

  method PathDown(tree: Tree, g: string) returns (path: seq<string>)
    requires IdsNamed(tree) && g != ""
    ensures (exists w :: IsWayFromTop(tree, SourceName(tree, g), w, g))
            ==> IsShortestWay(tree, SourceName(tree, g), path, g)
    ensures (forall w :: !IsWayFromTop(tree, SourceName(tree, g), w, g)) ==> path == [g]
  {
    var source := SourceName(tree, g);
    var next := map[g := ""];
    var queue := [g];
    ghost var dist: map<string, nat> := map[g := 0];
    ghost var done: set<string> := {};
    while queue != []
      invariant Searching(tree, source, g, next, dist, queue, done)
      decreases Ancestors(tree, g) - next.Keys, |queue|
    {
      var id := queue[0];
      var ups := SameSource(tree, source, id);
      if ups == [] {
        assert IsTop(tree, source, id);
        path := WalkDown(tree, source, g, next, dist, id);
        SearchFinds(tree, source, g, next, dist, queue, done, path);
        return;
      }
      queue, next, dist, done := LookAt(tree, source, g, next, dist, queue, done, ups);
    }
    SearchFails(tree, source, g, next, dist, done);
    return [g];
  }

  /** The search while it goes through the parents of a group at distance d. */
  ghost predicate Meeting(tree: Tree, source: string, g: string, next: map<string, string>, dist: map<string, nat>,
                          queue: seq<string>, done: set<string>, d: nat) {
    Met(tree, source, g, next, dist) && Ordered(dist, queue, done, d)
    && Lists(queue, next.Keys - done) && done <= next.Keys <= Ancestors(tree, g)
  }

  /** Whatever has been met is at most one further away than the group looked at. */
  lemma MetIsNear(tree: Tree, source: string, g: string, next: map<string, string>, dist: map<string, nat>,
                  queue: seq<string>, done: set<string>, d: nat, p: string)
    requires Meeting(tree, source, g, next, dist, queue, done, d) && p in next
    ensures dist[p] <= d + 1
  {
    if p !in done {
      assert p in Elements(queue);
      var i :| 0 <= i < |queue| && queue[i] == p;
    }
  }

  /** A parent not met before gets the group looked at as its successor. */
  lemma MetMore(tree: Tree, source: string, g: string, next: map<string, string>, dist: map<string, nat>, id: string,
                p: string)
    requires id in next && id in dist && id != "" && IsUp(tree, source, id, p) && p !in next && p != ""
    requires Met(tree, source, g, next, dist)
    ensures Met(tree, source, g, next[p := id], dist[p := dist[id] + 1])
  {
    var next', dist' := next[p := id], dist[p := dist[id] + 1];
    forall k | k in next' && k != g ensures Linked(tree, source, next', dist', k) {
      if k != p {
        assert Linked(tree, source, next, dist, k);
      }
    }
  }

  /** One more at the far end of the line keeps it ordered. */
  lemma OrderedMore(dist: map<string, nat>, queue: seq<string>, done: set<string>, d: nat, p: string)
    requires Ordered(dist, queue, done, d) && p !in dist
    ensures Ordered(dist[p := d + 1], queue + [p], done, d)
  {
  }

  /** A parent not met before joins the line. */
  lemma MeetOne(tree: Tree, source: string, g: string, next: map<string, string>, dist: map<string, nat>,
                queue: seq<string>, done: set<string>, id: string, p: string)
    requires IdsNamed(tree) && id in done && id in dist && id != ""
    requires Meeting(tree, source, g, next, dist, queue, done, dist[id])
    requires IsUp(tree, source, id, p) && p !in next
    ensures Meeting(tree, source, g, next[p := id], dist[p := dist[id] + 1], queue + [p], done, dist[id])
  {
    ListsMore(queue, next.Keys - done, p);
    assert (next.Keys - done) + {p} == next[p := id].Keys - done;
    assert p != "";
    MetMore(tree, source, g, next, dist, id, p);
    OrderedMore(dist, queue, done, dist[id], p);
  }

  /** The group next in line leaves it and counts as looked at. */
  lemma TakeFront(tree: Tree, source: string, g: string, next: map<string, string>, dist: map<string, nat>,
                  queue: seq<string>, done: set<string>)
    requires queue != [] && Meeting(tree, source, g, next, dist, queue, done, Front(dist, queue))
    ensures Meeting(tree, source, g, next, dist, queue[1..], done + {queue[0]}, Front(dist, queue))
  {
    ListsTail(queue, next.Keys - done);
    assert next.Keys - done - {queue[0]} == next.Keys - (done + {queue[0]});
    assert forall i :: 0 <= i < |queue[1..]| ==> queue[1..][i] == queue[i + 1];
  }

  /** With all its parents met one further away, it is explored. */
  lemma ExploredOne(tree: Tree, source: string, dist: map<string, nat>, dist': map<string, nat>, done: set<string>,
                    id: string, ups: seq<string>)
    requires Explored(tree, source, dist, done) && id in dist
    requires Extends(dist, dist')
    requires ups != [] && forall p :: p in ups <==> IsUp(tree, source, id, p)
    requires AllNear(ups, dist', dist[id] + 1)
    ensures Explored(tree, source, dist', done + {id})
  {
    assert IsUp(tree, source, id, ups[0]);
  }

  /** Nothing met is forgotten, and no distance changes. */
  ghost predicate Extends(dist: map<string, nat>, dist': map<string, nat>) {
    forall k :: k in dist ==> k in dist' && dist'[k] == dist[k]
  }

  /** All these groups are met, no further than d. */
  ghost predicate AllNear(ps: seq<string>, dist: map<string, nat>, d: nat) {
    forall p :: p in ps ==> p in dist && dist[p] <= d
  }

  lemma NearMore(ps: seq<string>, dist: map<string, nat>, dist': map<string, nat>, d: nat, p: string)
    requires AllNear(ps, dist, d) && Extends(dist, dist') && p in dist' && dist'[p] <= d
    ensures AllNear(ps + [p], dist', d)
  {
  }

  lemma ExtendsTransitive(d1: map<string, nat>, d2: map<string, nat>, d3: map<string, nat>)
    requires Extends(d1, d2) && Extends(d2, d3)
    ensures Extends(d1, d3)
  {
  }

  lemma OneMoreMet(ups: seq<string>, i: nat, dist: map<string, nat>, before: map<string, nat>, after: map<string, nat>,
                   d: nat)
    requires i < |ups| && Extends(dist, before) && Extends(before, after)
    requires AllNear(ups[..i], before, d) && ups[i] in after && after[ups[i]] <= d
    ensures Extends(dist, after) && AllNear(ups[..i + 1], after, d)
  {
    TakeMore(ups, i);
    NearMore(ups[..i], before, after, d, ups[i]);
    ExtendsTransitive(dist, before, after);
  }

  /** One parent of the group at distance d: met now, or met before. */
  method MeetParent(tree: Tree, source: string, g: string, next: map<string, string>, ghost dist: map<string, nat>,
                    queue: seq<string>, ghost done: set<string>, id: string, p: string)
    returns (queue': seq<string>, next': map<string, string>, ghost dist': map<string, nat>)
    requires IdsNamed(tree) && id in done && id in dist && id != "" && IsUp(tree, source, id, p)
    requires Meeting(tree, source, g, next, dist, queue, done, dist[id])
    ensures Extends(dist, dist') && Meeting(tree, source, g, next', dist', queue', done, dist[id])
    ensures p in dist' && dist'[p] <= dist[id] + 1
    ensures next.Keys <= next'.Keys && (next'.Keys == next.Keys ==> queue' == queue)
  {
    if p !in next {
      MeetOne(tree, source, g, next, dist, queue, done, id, p);
      return queue + [p], next[p := id], dist[p := dist[id] + 1];
    }
    MetIsNear(tree, source, g, next, dist, queue, done, dist[id], p);
    return queue, next, dist;
  }

  /** All parents of the group, in turn. */
  method MeetAll(tree: Tree, source: string, g: string, next: map<string, string>, ghost dist: map<string, nat>,
                 queue: seq<string>, ghost done: set<string>, id: string, ups: seq<string>)
    returns (queue': seq<string>, next': map<string, string>, ghost dist': map<string, nat>)
    requires IdsNamed(tree) && id in done && id in dist && id != ""
    requires forall p :: p in ups ==> IsUp(tree, source, id, p)
    requires Meeting(tree, source, g, next, dist, queue, done, dist[id])
    ensures Extends(dist, dist') && Meeting(tree, source, g, next', dist', queue', done, dist[id])
    ensures AllNear(ups, dist', dist[id] + 1)
    ensures next.Keys <= next'.Keys && (next'.Keys == next.Keys ==> queue' == queue)
  {
    queue', next', dist' := queue, next, dist;
    for i := 0 to |ups|
      invariant Extends(dist, dist') && Meeting(tree, source, g, next', dist', queue', done, dist[id])
      invariant AllNear(ups[..i], dist', dist[id] + 1)
      invariant next.Keys <= next'.Keys && (next'.Keys == next.Keys ==> queue' == queue)
    {
      ghost var before := dist';
      queue', next', dist' := MeetParent(tree, source, g, next', dist', queue', done, id, ups[i]);
      OneMoreMet(ups, i, dist, before, dist', dist[id] + 1);
    }
    assert ups[..|ups|] == ups;
  }

  /** Looks at the group next in line: parents of the source not met before join the line, one further away. */
  method Explore(tree: Tree, source: string, g: string, next: map<string, string>, ghost dist: map<string, nat>,
                 queue: seq<string>, ghost done: set<string>, ups: seq<string>)
    returns (queue': seq<string>, next': map<string, string>, ghost dist': map<string, nat>, ghost done': set<string>)
    requires IdsNamed(tree) && queue != []
    requires Explored(tree, source, dist, done)
    requires Meeting(tree, source, g, next, dist, queue, done, Front(dist, queue))
    requires ups != [] && forall p :: p in ups <==> IsUp(tree, source, queue[0], p)
    ensures Explored(tree, source, dist', done')
    ensures Meeting(tree, source, g, next', dist', queue', done', Front(dist, queue))
    ensures next.Keys <= next'.Keys && (next'.Keys == next.Keys ==> |queue'| < |queue|)
  {
    var id := queue[0];
    TakeFront(tree, source, g, next, dist, queue, done);
    done' := done + {id};
    queue', next', dist' := MeetAll(tree, source, g, next, dist, queue[1..], done', id, ups);
    ExploredOne(tree, source, dist, dist', done, id, ups);
  }

  /** The next group in line sets the new distance. */
  lemma NewFront(dist: map<string, nat>, queue: seq<string>, done: set<string>, d: nat)
    requires queue != [] && Ordered(dist, queue, done, d)
    ensures Ordered(dist, queue, done, Front(dist, queue))
  {
  }

  /** Of a finite whole, less is left to meet unless nothing new was met. */
  lemma LessLeft<T>(whole: set<T>, met: set<T>, met': set<T>)
    requires met <= met' <= whole
    ensures met' == met || whole - met' < whole - met
  {
    if !(met' <= met) {
      var p :| p in met' && p !in met;
      assert p in whole - met && p !in whole - met';
    }
  }

  /** One turn of the search: the line gets shorter, or another ancestor has been met. */
  method LookAt(tree: Tree, source: string, g: string, next: map<string, string>, ghost dist: map<string, nat>,
                queue: seq<string>, ghost done: set<string>, ups: seq<string>)
    returns (queue': seq<string>, next': map<string, string>, ghost dist': map<string, nat>, ghost done': set<string>)
    requires IdsNamed(tree) && queue != [] && Searching(tree, source, g, next, dist, queue, done)
    requires ups != [] && forall p :: p in ups <==> IsUp(tree, source, queue[0], p)
    ensures Searching(tree, source, g, next', dist', queue', done')
    ensures Ancestors(tree, g) - next'.Keys < Ancestors(tree, g) - next.Keys
            || (next'.Keys == next.Keys && |queue'| < |queue|)
  {
    ghost var d := Front(dist, queue);
    queue', next', dist', done' := Explore(tree, source, g, next, dist, queue, done, ups);
    if queue' != [] {
      NewFront(dist', queue', done', d);
    }
    LessLeft(Ancestors(tree, g), next.Keys, next'.Keys);
  }

  // ── The way is the tree's ───────────────────────────────────────────────────

  lemma WayKnown(tree: Tree, g: string, w: seq<string>, i: nat)
    requires IsWayFromTop(tree, SourceName(tree, g), w, g) && i < |w|
    ensures SourceName(tree, w[i]) == SourceName(tree, g)
  {
    if i < |w| - 1 {
      assert IsUp(tree, SourceName(tree, g), w[i + 1], w[i]);
    }
  }

  /**
   * A way from the top runs along edges; it starts in the source's top listing, and each further group is in the
   * listing of the one before, exactly when every group on it is known. For a source with a name they all are.
   */
  lemma WayIsListed(tree: Tree, E: set<Edge>, g: string, w: seq<string>)
    requires BuiltFrom(tree, E) && IsWayFromTop(tree, SourceName(tree, g), w, g)
    ensures forall i :: 0 <= i < |w| - 1 ==> Edge(w[i], w[i + 1]) in E
    ensures InTop(tree, SourceName(tree, g), w[0]) && (forall i :: 0 <= i < |w| - 1 ==> InParent(tree, w[i], w[i + 1]))
            <==> forall i :: 0 <= i < |w| ==> w[i] in tree.sourceOf
    ensures SourceName(tree, g) != "" ==> forall i :: 0 <= i < |w| ==> w[i] in tree.sourceOf
  {
    var source := SourceName(tree, g);
    forall i | 0 <= i < |w| ensures SourceName(tree, w[i]) == source {
      WayKnown(tree, g, w, i);
    }
    forall i | 0 <= i < |w| - 1
      ensures Edge(w[i], w[i + 1]) in E && w[i + 1] in ListAt(tree.children, w[i])
    {
      assert IsUp(tree, source, w[i + 1], w[i]);
      assert Edge(w[i], w[i + 1]) in E;
    }
    if forall i :: 0 <= i < |w| - 1 ==> InParent(tree, w[i], w[i + 1]) {
      forall i | 0 < i < |w| ensures w[i] in tree.sourceOf {
        assert InParent(tree, w[i - 1], w[i - 1 + 1]);
      }
    }
  }

  /**
   * A tree whose groups were read before its edges can lack a group that has since been created and had a group put
   * into it: it then heads the way to that one, if of no named source, and is in no listing.
   */
  lemma UnknownOnWay(p: string, g: string)
    requires p != g && g != ""
    ensures var tree := Tree(map[g := ""], map[g := [p]], map[p := [g]]);
            BuiltFrom(tree, {Edge(p, g)}) && IsWayFromTop(tree, SourceName(tree, g), [p, g], g)
            && !InTop(tree, SourceName(tree, g), p)
  {
    var tree := Tree(map[g := ""], map[g := [p]], map[p := [g]]);
    assert IsUp(tree, "", g, p);
    assert IsTop(tree, "", p);
    assert IsWayDown(tree, "", [p, g]);
  }

  lemma WayIsPath(tree: Tree, E: set<Edge>, source: string, w: seq<string>)
    requires BuiltFrom(tree, E) && IsWayDown(tree, source, w)
    ensures IsPath(E, w)
  {
    forall i | 0 <= i < |w| - 1 ensures Edge(w[i], w[i + 1]) in E {
      assert IsUp(tree, source, w[i + 1], w[i]);
    }
  }

  /** In an acyclic graph no walk meets a group twice. */
  lemma AcyclicWalk(E: set<Edge>, w: seq<string>)
    requires Acyclic(E) && IsPath(E, w)
    ensures NoDuplicates(w)
  {
    forall i, j | 0 <= i < j < |w| ensures w[i] != w[j] {
      var part := w[i..j + 1];
      assert IsPath(E, part) by {
        forall k | 0 <= k < |part| - 1 ensures Edge(part[k], part[k + 1]) in E {
          assert part[k] == w[i + k] && part[k + 1] == w[i + k + 1];
        }
      }
      assert !IsCycle(E, part);
    }
  }

  lemma {:induction false} NoDuplicatesCount(s: seq<string>, S: set<string>)
    requires NoDuplicates(s) && Elements(s) <= S
    ensures |s| <= |S|
  {
    if s != [] {
      ListsTail(s, Elements(s));
      NoDuplicatesCount(s[1..], S - {s[0]});
    }
  }

  /** Climbing on from any group ends at a top. */
  lemma {:induction false} TopExists(tree: Tree, E: set<Edge>, source: string, g: string, w: seq<string>)
    returns (top: seq<string>)
    requires BuiltFrom(tree, E) && Acyclic(E)
    requires IsWayDown(tree, source, w) && w[|w| - 1] == g && Elements(w) <= Ancestors(tree, g)
    ensures IsWayFromTop(tree, source, top, g)
    decreases |Ancestors(tree, g)| - |w|
  {
    WayIsPath(tree, E, source, w);
    AcyclicWalk(E, w);
    NoDuplicatesCount(w, Ancestors(tree, g));
    if IsTop(tree, source, w[0]) {
      top := w;
    } else {
      var p :| IsUp(tree, source, w[0], p);
      var longer := [p] + w;
      ElementsConcat([p], w);
      assert IsWayDown(tree, source, longer);
      WayIsPath(tree, E, source, longer);
      AcyclicWalk(E, longer);
      NoDuplicatesCount(longer, Ancestors(tree, g));
      top := TopExists(tree, E, source, g, longer);
    }
  }

  /**
   * While the groups form no cycle every group hangs below a top of its source, so the way PathDown shows is never cut
   * off.
   */
  lemma AcyclicHasWay(tree: Tree, E: set<Edge>, g: string)
    requires BuiltFrom(tree, E) && Acyclic(E)
    ensures exists w :: IsWayFromTop(tree, SourceName(tree, g), w, g)
  {
    var w := TopExists(tree, E, SourceName(tree, g), g, [g]);
  }
}
