// Cycles in the live group graph come from imports alone (internal/groupmgmt/service.go:419-491).
module AcyclicRuns {
  import opened Wrappers
  import opened Sequences
  import opened Tokens
  import opened Validate
  import opened Tuples
  import opened Graph
  import opened Transitions
  import opened ChangeLaws
  import opened Steps

  ghost function LiveGraph(st: State, now: Instant): set<Edge> {
    Edges(LiveTuples(st.tuples, now))
  }

  /** Every cycle of the one graph is a cycle of the other. */
  ghost predicate CyclesWithin(E': set<Edge>, E: set<Edge>) {
    forall p :: IsCycle(E', p) ==> IsCycle(E, p)
  }

  lemma SubgraphCycles(E': set<Edge>, E: set<Edge>)
    requires E' <= E
    ensures CyclesWithin(E', E)
  {
    forall p | IsCycle(E', p) ensures IsCycle(E, p) {
      PathMonotone(E', E, p);
    }
  }

  /** Time alone only takes edges away. */
  lemma TimeOnlyExpires(ts: seq<Tuple>, now: Instant, later: Instant)
    requires now <= later
    ensures Edges(LiveTuples(ts, later)) <= Edges(LiveTuples(ts, now))
  {
  }

  lemma FilteredGraph(ts: seq<Tuple>, keep: Tuple -> bool, now: Instant)
    ensures Edges(LiveTuples(Filter(ts, keep), now)) <= Edges(LiveTuples(ts, now))
  {
    FilterElements(ts, keep);
  }

  /** Adding an entry adds at most the edge it names. */
  lemma UpsertGraph(ts: seq<Tuple>, k: Key, sourceId: Option<SourceId>, expires: Option<Instant>, now: Instant)
    ensures Edges(LiveTuples(Upsert(ts, k, sourceId, expires), now))
         <= Edges(LiveTuples(ts, now)) + (if k.kind == Subgroup then {Edge(k.objId, k.subjId)} else {})
  {
    var i := IndexOf(ts, k);
    forall t | t in Upsert(ts, k, sourceId, expires)
      ensures t in ts || KeyOf(t) == k
    {
      if i < |ts| {
        var j :| 0 <= j < |ts| && t == ts[i := ts[i].(expires := expires)][j];
        assert j != i ==> t == ts[j];
      }
    }
  }

  /** An edge whose child does not enclose its parent closes no cycle, whatever cycles there were. */
  lemma NewEdgeCycles(E: set<Edge>, g: string, m: string)
    requires !Encloses(E, m, g)
    ensures CyclesWithin(E + {Edge(g, m)}, E)
  {
    forall p | IsCycle(E + {Edge(g, m)}, p) ensures IsCycle(E, p) {
      NoCycleThroughNewEdge(E, g, m, p);
      CycleWithoutEdge(E, Edge(g, m), p);
    }
  }

  lemma CyclesTransitive(E1: set<Edge>, E2: set<Edge>, E3: set<Edge>)
    requires CyclesWithin(E1, E2) && CyclesWithin(E2, E3)
    ensures CyclesWithin(E1, E3)
  {
  }

  lemma AddMemberCycles(cfg: Config, st: State, caller: Caller, groupToken: string, relation: string,
                        memberToken: string, expires: Option<Instant>, now: Instant)
    ensures var after := AddMember(cfg, st, caller, groupToken, relation, memberToken, expires, now);
            after.Ok? ==> CyclesWithin(LiveGraph(after.value, now), LiveGraph(st, now))
  {
    var after := AddMember(cfg, st, caller, groupToken, relation, memberToken, expires, now);
    if after.Ok? {
      var m := CheckMember(cfg, relation, memberToken, expires, now).value;
      var id := LocalGroup(cfg, st, caller, groupToken).value;
      var k := MakeKey(id, m.relation, m.kind, m.id);
      UpsertGraph(st.tuples, k, Some(cfg.localId), expires, now);
      if m.kind == Subgroup {
        NewEdgeCycles(LiveGraph(st, now), id, k.subjId);
        SubgraphCycles(LiveGraph(after.value, now), LiveGraph(st, now) + {Edge(id, k.subjId)});
        CyclesTransitive(LiveGraph(after.value, now), LiveGraph(st, now) + {Edge(id, k.subjId)}, LiveGraph(st, now));
      } else {
        SubgraphCycles(LiveGraph(after.value, now), LiveGraph(st, now));
      }
    }
  }

  /** No cycle runs along the edge an accepted AddMember has just put in, even when imports made others. */
  lemma AddedEdgeOnNoCycle(cfg: Config, st: State, caller: Caller, groupToken: string, relation: string,
                           memberToken: string, expires: Option<Instant>, now: Instant, p: seq<string>)
    ensures var after := AddMember(cfg, st, caller, groupToken, relation, memberToken, expires, now);
            after.Ok? && CheckMember(cfg, relation, memberToken, expires, now).value.kind == Subgroup
            && IsCycle(LiveGraph(after.value, now), p)
            ==> !PassesThrough(p, Edge(LocalGroup(cfg, st, caller, groupToken).value,
                                       MemberGroup(CheckMember(cfg, relation, memberToken, expires, now).value.id).0))
  {
    var after := AddMember(cfg, st, caller, groupToken, relation, memberToken, expires, now);
    if after.Ok? && CheckMember(cfg, relation, memberToken, expires, now).value.kind == Subgroup
       && IsCycle(LiveGraph(after.value, now), p) {
      var m := CheckMember(cfg, relation, memberToken, expires, now).value;
      var id := LocalGroup(cfg, st, caller, groupToken).value;
      var k := MakeKey(id, m.relation, m.kind, m.id);
      UpsertGraph(st.tuples, k, Some(cfg.localId), expires, now);
      PathMonotone(LiveGraph(after.value, now), LiveGraph(st, now) + {Edge(id, k.subjId)}, p);
      NoCycleThroughNewEdge(LiveGraph(st, now), id, k.subjId, p);
    }
  }

  lemma ChangeRelationGraph(cfg: Config, st: State, caller: Caller, groupToken: string, memberToken: string,
                            fromRelation: string, toRelation: string, now: Instant)
    ensures var after := ChangeRelation(cfg, st, caller, groupToken, memberToken, fromRelation, toRelation);
            after.Ok? ==> LiveGraph(after.value, now) == LiveGraph(st, now)
  {
    var after := ChangeRelation(cfg, st, caller, groupToken, memberToken, fromRelation, toRelation);
    if after.Ok? && after.value.tuples != st.tuples {
      var (kind, memberId) := ParseMemberToken(memberToken).value;
      var id := LocalGroup(cfg, st, caller, groupToken).value;
      var k := MakeKey(id, CheckRelation(cfg, fromRelation).value, kind, memberId);
      ChangeKeepsEdges(st.tuples, k, CheckRelation(cfg, toRelation).value, now);
    }
  }

  lemma MovedGraph(ts: seq<Tuple>, from: Option<SourceId>, to: SourceId, now: Instant)
    ensures Edges(LiveTuples(MovedTuples(ts, from, to), now)) == Edges(LiveTuples(ts, now))
  {
    MovedKeys(ts, from, to, now);
    SameKeysEdges(LiveTuples(MovedTuples(ts, from, to), now), LiveTuples(ts, now));
    SameKeysEdges(LiveTuples(ts, now), LiveTuples(MovedTuples(ts, from, to), now));
  }

  /** Deleting a group or an entry only takes edges away. */
  lemma RemovalGraph(cfg: Config, st: State, ev: Event, now: Instant)
    requires ev.GroupDeleted? || ev.MemberRemoved?
    ensures LiveGraph(Next(cfg, st, ev, now), now) <= LiveGraph(st, now)
  {
    match ev
    case GroupDeleted(caller, group) =>
      if DeleteGroup(cfg, st, caller, group).Ok? {
        FilteredGraph(st.tuples, NotMentioning(LocalGroup(cfg, st, caller, group).value), now);
      }
    case MemberRemoved(caller, group, relation, member) =>
      if RemoveMember(cfg, st, caller, group, relation, member).Ok? {
        var (kind, memberId) := ParseMemberToken(member).value;
        var k := MakeKey(LocalGroup(cfg, st, caller, group).value, CheckRelation(cfg, relation).value, kind, memberId);
        FilteredGraph(st.tuples, NotKey(k), now);
      }
  }

  /** Every step but an import leaves the live graph with no cycle it did not have. */
  lemma StepCycles(cfg: Config, st: State, ev: Event, now: Instant)
    requires !ev.Synced?
    ensures CyclesWithin(LiveGraph(Next(cfg, st, ev, now), now), LiveGraph(st, now))
  {
    var after := Next(cfg, st, ev, now);
    match ev
    case MemberAdded(caller, group, relation, member, expires) =>
      AddMemberCycles(cfg, st, caller, group, relation, member, expires, now);
      SubgraphCycles(LiveGraph(st, now), LiveGraph(st, now));
    case RelationChanged(caller, group, member, from, to) =>
      ChangeRelationGraph(cfg, st, caller, group, member, from, to, now);
      SubgraphCycles(LiveGraph(after, now), LiveGraph(st, now));
    case SourceDeleted(sourceId) =>
      FilteredGraph(st.tuples, NotOwnedBy(sourceId), now);
      MovedGraph(WithoutSource(st, sourceId).tuples, None, cfg.localId, now);
      SubgraphCycles(LiveGraph(after, now), LiveGraph(st, now));
    case SourceAdopted(sourceId) =>
      MovedGraph(st.tuples, Some(sourceId), cfg.localId, now);
      FilteredGraph(Moved(st, Some(sourceId), cfg.localId).tuples, NotOwnedBy(sourceId), now);
      SubgraphCycles(LiveGraph(after, now), LiveGraph(st, now));
    case OrphansAdopted =>
      MovedGraph(st.tuples, None, cfg.localId, now);
      SubgraphCycles(LiveGraph(after, now), LiveGraph(st, now));
    case GroupDeleted(caller, group) =>
      RemovalGraph(cfg, st, ev, now);
      SubgraphCycles(LiveGraph(after, now), LiveGraph(st, now));
    case MemberRemoved(caller, group, relation, member) =>
      RemovalGraph(cfg, st, ev, now);
      SubgraphCycles(LiveGraph(after, now), LiveGraph(st, now));
    case Synced(_, _, _) =>
    case _ =>
      SubgraphCycles(LiveGraph(st, now), LiveGraph(st, now));
  }

  ghost predicate NoImports(run: seq<Moment>) {
    forall i :: 0 <= i < |run| ==> !run[i].ev.Synced?
  }

  /** The clock does not run backwards, and the run is over by `end`. */
  ghost predicate InOrder(run: seq<Moment>, start: Instant, end: Instant) {
    start <= end
    && (forall i :: 0 <= i < |run| ==> start <= run[i].now <= end)
    && (forall i, j :: 0 <= i < j < |run| ==> run[i].now <= run[j].now)
  }

  /** Whatever a run without imports does, every cycle at its end was there at its start. */
  lemma {:induction false} RunCycles(cfg: Config, st: State, run: seq<Moment>, start: Instant, end: Instant)
    requires NoImports(run) && InOrder(run, start, end)
    ensures CyclesWithin(LiveGraph(Run(cfg, st, run), end), LiveGraph(st, start))
  {
    if run == [] {
      TimeOnlyExpires(st.tuples, start, end);
      SubgraphCycles(LiveGraph(st, end), LiveGraph(st, start));
    } else {
      var init, last := run[..|run| - 1], run[|run| - 1];
      RunCycles(cfg, st, init, start, last.now);
      var before, after := Run(cfg, st, init), Run(cfg, st, run);
      StepCycles(cfg, before, last.ev, last.now);
      TimeOnlyExpires(after.tuples, last.now, end);
      SubgraphCycles(LiveGraph(after, end), LiveGraph(after, last.now));
      CyclesTransitive(LiveGraph(after, end), LiveGraph(after, last.now), LiveGraph(before, last.now));
      CyclesTransitive(LiveGraph(after, end), LiveGraph(before, last.now), LiveGraph(st, start));
    }
  }

  lemma NoEdgesNoCycle(p: seq<string>)
    ensures !IsCycle({}, p)
  {
    if |p| >= 2 {
      var e := Edge(p[0], p[1]);
      assert e !in {};
    }
  }

  /** So the groups maintained here never come to contain themselves. */
  lemma RunAcyclic(cfg: Config, name: string, run: seq<Moment>, start: Instant, end: Instant)
    requires NoImports(run) && InOrder(run, start, end)
    ensures Acyclic(LiveGraph(Run(cfg, Initial(cfg, name), run), end))
  {
    RunCycles(cfg, Initial(cfg, name), run, start, end);
    assert LiveGraph(Initial(cfg, name), start) == {};
    forall p { NoEdgesNoCycle(p); }
  }
}
