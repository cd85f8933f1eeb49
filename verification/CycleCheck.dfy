// The breadth-first check AddMember makes before a group enters a group
// (internal/groupmgmt/service.go:462-491).
module CycleCheck {
  import opened Sequences
  import opened Graph

  /** children[id] lists exactly the groups entered in id. */
  ghost predicate ChildLists(children: map<string, seq<string>>, E: set<Edge>) {
    forall id, c :: Edge(id, c) in E <==> id in children && c in children[id]
  }

  method ChildrenOf(edges: seq<Edge>) returns (children: map<string, seq<string>>)
    ensures ChildLists(children, Elements(edges))
  {
    children := map[];
    for i := 0 to |edges|
      invariant ChildLists(children, Elements(edges[..i]))
    {
      var e := edges[i];
      var so := if e.parent in children then children[e.parent] else [];
      assert edges[..i + 1] == edges[..i] + [e];
      ElementsConcat(edges[..i], [e]);
      children := children[e.parent := so + [e.child]];
    }
    assert edges[..|edges|] == edges;
  }

  /** What the search has seen lies below the member, and what it is done with leads nowhere new. */
  ghost predicate Search(E: set<Edge>, member: string, group: string, seen: set<string>, done: set<string>) {
    member in seen && done <= seen && group !in seen
    && (forall x :: x in seen ==> Encloses(E, member, x))
    && (forall e :: e in E && e.parent in done ==> e.child in seen)
  }

  lemma EnclosesMore(E: set<Edge>, a: string, b: string, c: string)
    requires Encloses(E, a, b) && Edge(b, c) in E
    ensures Encloses(E, a, c)
  {
    var p :| Connects(E, p, a, b);
    assert Connects(E, p + [c], a, c);
  }

  lemma SearchDone(E: set<Edge>, member: string, group: string, seen: set<string>)
    requires Search(E, member, group, seen, seen)
    ensures !Encloses(E, member, group)
  {
    forall p | Connects(E, p, member, group) ensures false {
      ClosedEncloses(E, seen, p);
    }
  }

  /** The ids reachable at all: the member and every child there is. */
  function Ids(edges: seq<Edge>, member: string): set<string> {
    {member} + set e | e in edges :: e.child
  }

  /**
   * Goes through the groups entered in one group: stops at the group asked about, and adds the others not seen yet to
   * the queue.
   */
  method Look(ghost E: set<Edge>, ghost member: string, group: string, id: string, below: seq<string>,
              seen: set<string>, queue: seq<string>, ghost done: set<string>)
    returns (found: bool, seen': set<string>, queue': seq<string>)
    requires Search(E, member, group, seen, done) && id in seen
    requires forall c :: c in below <==> Edge(id, c) in E
    requires Lists(queue, seen - done - {id})
    ensures found ==> Encloses(E, member, group)
    ensures !found ==> Search(E, member, group, seen', done + {id}) && Lists(queue', seen' - (done + {id}))
    ensures !found ==> seen <= seen' <= seen + Elements(below) && (seen' == seen ==> queue' == queue)
  {
    seen', queue' := seen, queue;
    for i := 0 to |below|
      invariant seen <= seen' <= seen + Elements(below) && group !in seen'
      invariant forall x :: x in seen' ==> Encloses(E, member, x)
      invariant forall j :: 0 <= j < i ==> below[j] in seen'
      invariant Lists(queue', seen' - done - {id})
      invariant seen' == seen ==> queue' == queue
    {
      var c := below[i];
      assert c in below;
      EnclosesMore(E, member, id, c);
      if c == group {
        return true, seen', queue';
      }
      if c !in seen' {
        ListsMore(queue', seen' - done - {id}, c);
        assert (seen' - done - {id}) + {c} == (seen' + {c}) - done - {id};
        seen', queue' := seen' + {c}, queue' + [c];
      }
    }
    assert seen' - done - {id} == seen' - (done + {id});
    return false, seen', queue';
  }

  /** Refuses exactly when the member group already holds the group, directly or further down, or is the group. */
  method CheckNoCycle(edges: seq<Edge>, group: string, member: string) returns (cycle: bool)
    ensures cycle <==> Encloses(Elements(edges), member, group)
  {
    ghost var E := Elements(edges);
    assert Connects(E, [member], member, member);
    if group == member {
      return true;
    }
    var children := ChildrenOf(edges);
    var seen := {member};
    var queue := [member];
    ghost var done: set<string> := {};
    while queue != []
      invariant Search(E, member, group, seen, done) && Lists(queue, seen - done)
      invariant seen <= Ids(edges, member)
      decreases Ids(edges, member) - seen, |queue|
    {
      var id := queue[0];
      ListsTail(queue, seen - done);
      var below := if id in children then children[id] else [];
      assert forall c :: c in below ==> Edge(id, c) in edges;
      assert Elements(below) <= Ids(edges, member);
      var found, seen', queue' := Look(E, member, group, id, below, seen, queue[1..], done);
      if found {
        return true;
      }
      seen, queue, done := seen', queue', done + {id};
    }
    assert seen - done == Elements([]) == {};
    assert done == seen - (seen - done);
    SearchDone(E, member, group, seen);
    return false;
  }
}
