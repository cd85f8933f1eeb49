// What changing, deleting and moving entries does to what people hold, at every instant.
module ChangeLaws {
  import opened Wrappers
  import opened Sequences
  import opened Tokens
  import opened Tuples
  import opened Resolution
  import opened Graph
  import opened Transitions

  // ── What resolution depends on ──────────────────────────────────────────────

  function Keys(L: set<Tuple>): set<Key> {
    set t | t in L :: KeyOf(t)
  }

  /** A tuple of the same key in the other set. */
  lemma SameKeyed(L1: set<Tuple>, L2: set<Tuple>, t: Tuple) returns (u: Tuple)
    requires Keys(L1) <= Keys(L2) && t in L1
    ensures u in L2 && KeyOf(u) == KeyOf(t)
  {
    assert KeyOf(t) in Keys(L2);
    u :| u in L2 && KeyOf(u) == KeyOf(t);
  }

  lemma SameKeysSteps(L1: set<Tuple>, L2: set<Tuple>, email: string, S: set<Pair>)
    requires Keys(L1) <= Keys(L2)
    ensures Seeds(L1, email) <= Seeds(L2, email) && Passed(L1, S) <= Passed(L2, S)
  {
    forall t | t in L1 && Names(t, email) ensures PairOf(t) in Seeds(L2, email) {
      var u := SameKeyed(L1, L2, t);
      assert Names(u, email) && PairOf(u) == PairOf(t);
    }
    forall t, q | t in L1 && q in S && Feeds(q, t) ensures PairOf(t) in Passed(L2, S) {
      var u := SameKeyed(L1, L2, t);
      assert Feeds(q, u) && PairOf(u) == PairOf(t);
    }
  }

  lemma SameKeysOneWay(L1: set<Tuple>, L2: set<Tuple>, email: string)
    requires Keys(L1) <= Keys(L2)
    ensures Held(L1, email) <= Held(L2, email)
  {
    HeldClosed(L2, email);
    SameKeysSteps(L1, L2, email, Held(L2, email));
    HeldIsLeast(L1, email, Held(L2, email));
  }

  lemma SameKeysReached(L1: set<Tuple>, L2: set<Tuple>, p: Pair)
    requires Keys(L1) <= Keys(L2)
    ensures Keys(Reached(L1, p)) <= Keys(Reached(L2, p))
  {
    var T := set t | t in L1 && KeyOf(t) in Keys(Reached(L2, p));
    ReachedClosed(L2, p);
    forall u | u in Entries(L1, p) + Expanded(L1, T) ensures u in T {
      assert KeyOf(u) in Keys(L2);
      var v :| v in L2 && KeyOf(v) == KeyOf(u);
      if u in Entries(L1, p) {
        assert v in Entries(L2, p);
      } else {
        var t :| t in T && Feeds(PairOf(u), t);
        var w :| w in Reached(L2, p) && KeyOf(w) == KeyOf(t);
        assert v in Expanded(L2, Reached(L2, p));
      }
      assert KeyOf(v) in Keys(Reached(L2, p));
    }
    ReachedIsLeast(L1, p, T);
    assert Reached(L1, p) <= T;
  }

  lemma SubjectTokensOfKeys(T1: set<Tuple>, T2: set<Tuple>)
    requires Keys(T1) <= Keys(T2)
    ensures SubjectTokens(T1) <= SubjectTokens(T2)
  {
    forall token | token in SubjectTokens(T1) ensures token in SubjectTokens(T2) {
      var t :| t in T1 && t.kind != Pattern && MemberToken(t.kind, t.subjId, t.subjRel) == token;
      assert KeyOf(t) in Keys(T2);
      var u :| u in T2 && KeyOf(u) == KeyOf(t);
    }
  }

  /**
   * Sources, and how often a key is stored, do not matter: live keys alone decide what everyone holds and whom every
   * group counts.
   */
  lemma KeysDecide(L1: set<Tuple>, L2: set<Tuple>, email: string, p: Pair)
    requires Keys(L1) == Keys(L2)
    ensures Held(L1, email) == Held(L2, email)
    ensures MemberTokens(L1, p) == MemberTokens(L2, p)
    ensures Edges(L1) == Edges(L2)
  {
    SameKeysOneWay(L1, L2, email);
    SameKeysOneWay(L2, L1, email);
    SameKeysReached(L1, L2, p);
    SameKeysReached(L2, L1, p);
    SubjectTokensOfKeys(Reached(L1, p), Reached(L2, p));
    SubjectTokensOfKeys(Reached(L2, p), Reached(L1, p));
    SameKeysEdges(L1, L2);
    SameKeysEdges(L2, L1);
  }

  lemma SameKeysEdges(L1: set<Tuple>, L2: set<Tuple>)
    requires Keys(L1) <= Keys(L2)
    ensures Edges(L1) <= Edges(L2)
  {
    forall e | e in Edges(L1) ensures e in Edges(L2) {
      var t :| t in L1 && t.kind == Subgroup && EdgeOf(t) == e;
      assert KeyOf(t) in Keys(L2);
      var u :| u in L2 && KeyOf(u) == KeyOf(t);
    }
  }

  // ── ChangeRelation ──────────────────────────────────────────────────────────

  /** The same subject in the same group, whatever the relation. */
  predicate SameSubject(t: Tuple, u: Tuple) {
    t.objId == u.objId && t.kind == u.kind && t.subjId == u.subjId && t.subjRel == u.subjRel
  }

  /** Every tuple of L is in L', except that group g may list its subjects under other relations. */
  ghost predicate CoveredUpTo(L: set<Tuple>, L': set<Tuple>, g: string) {
    forall t :: t in L ==>
      if t.objId == g then exists u :: u in L' && SameSubject(t, u) else t in L'
  }

  lemma CoveredEdges(L: set<Tuple>, L': set<Tuple>, g: string)
    requires CoveredUpTo(L, L', g)
    ensures Edges(L) <= Edges(L')
  {
    forall e | e in Edges(L) ensures e in Edges(L') {
      var t :| t in L && t.kind == Subgroup && EdgeOf(t) == e;
      if t.objId == g {
        var u :| u in L' && SameSubject(t, u);
        assert EdgeOf(u) == e;
      }
    }
  }

  /** A chain into g can stop at the first entry of g it meets; up to there nothing changed. */
  lemma {:induction false} FirstArrival(L: set<Tuple>, L': set<Tuple>, g: string, email: string, c: seq<Tuple>)
    returns (c': seq<Tuple>)
    requires CoveredUpTo(L, L', g)
    requires c != [] && IsChain(L, c) && Names(c[0], email) && c[|c| - 1].objId == g
    ensures c' != [] && IsChain(L', c') && Names(c'[0], email) && c'[|c'| - 1].objId == g
  {
    if i :| 0 <= i < |c| - 1 && c[i].objId == g {
      c' := FirstArrival(L, L', g, email, c[..i + 1]);
    } else {
      var last := c[|c| - 1];
      assert last in L;
      var u :| u in L' && SameSubject(last, u);
      c' := c[..|c| - 1] + [u];
    }
  }

  lemma CoveredHolds(L: set<Tuple>, L': set<Tuple>, g: string, email: string)
    requires CoveredUpTo(L, L', g) && HoldsIn(L, email, Pair(g, MEMBER))
    ensures HoldsIn(L', email, Pair(g, MEMBER))
  {
    var q :| q in Held(L, email) && q.group == g;
    var c :| IsHeldBy(L, email, c, q);
    var c' := FirstArrival(L, L', g, email, c);
    var q' := PairOf(c'[|c'| - 1]);
    assert IsHeldBy(L', email, c', q');
    HeldHasChain(L', email, q');
  }

  /** The merged entry counts exactly as long as one of the two would have. */
  lemma LaterExpiryLive(t: Tuple, u: Tuple, now: Instant)
    ensures Live(u.(expires := LaterExpiry(t.expires, u.expires)), now) <==> Live(t, now) || Live(u, now)
  {
  }

  /** The merge: entry `from` goes, entry `target` takes the longer life. */
  function Merged(ts: seq<Tuple>, from: nat, target: nat): seq<Tuple>
    requires from < |ts| && target < |ts|
  {
    Without(ts[target := ts[target].(expires := LaterExpiry(ts[from].expires, ts[target].expires))], from)
  }

  lemma MergeCovers(ts: seq<Tuple>, from: nat, target: nat, i: nat, now: Instant)
    requires from < |ts| && target < |ts| && from != target && i < |ts| && Live(ts[i], now)
    requires SameSubject(ts[from], ts[target])
    ensures exists u :: u in LiveTuples(Merged(ts, from, target), now) && SameSubject(ts[i], u)
    ensures i != from && i != target ==> ts[i] in LiveTuples(Merged(ts, from, target), now)
  {
    var merged := Merged(ts, from, target);
    var j := if i == from then target else i;
    var u := merged[if j < from then j else j - 1];
    LaterExpiryLive(ts[from], ts[target], now);
    assert u in merged && Live(u, now) && SameSubject(ts[i], u);
  }

  lemma MergeCovered(ts: seq<Tuple>, from: nat, target: nat, i: nat, now: Instant)
    requires from < |ts| && target < |ts| && from != target
    requires SameSubject(ts[from], ts[target])
    requires i < |Merged(ts, from, target)| && Live(Merged(ts, from, target)[i], now)
    ensures var t := Merged(ts, from, target)[i];
            (exists u :: u in LiveTuples(ts, now) && SameSubject(t, u))
            && (t.objId != ts[from].objId ==> t in LiveTuples(ts, now))
  {
    var t := Merged(ts, from, target)[i];
    var j := if i < from then i else i + 1;
    LaterExpiryLive(ts[from], ts[target], now);
    var u := if j == target && Live(ts[from], now) then ts[from] else ts[j];
    assert u in ts && Live(u, now) && SameSubject(t, u);
  }

  /** Every live subject stays a live subject of its group. */
  lemma RerelateCovers(ts: seq<Tuple>, k: Key, to: string, now: Instant)
    requires Rerelate(ts, k, to).Ok?
    ensures CoveredUpTo(LiveTuples(ts, now), LiveTuples(Rerelate(ts, k, to).value, now), k.objId)
  {
    var ts' := Rerelate(ts, k, to).value;
    var from, target := IndexOf(ts, k), IndexOf(ts, k.(relation := to));
    forall t | t in LiveTuples(ts, now)
      ensures if t.objId == k.objId then exists u :: u in LiveTuples(ts', now) && SameSubject(t, u)
              else t in LiveTuples(ts', now)
    {
      var i :| 0 <= i < |ts| && ts[i] == t;
      if k.relation == to {
        assert t in LiveTuples(ts', now) && SameSubject(t, t);
      } else if target == |ts| {
        assert ts'[i] in LiveTuples(ts', now) && SameSubject(t, ts'[i]);
      } else {
        MergeCovers(ts, from, target, i, now);
      }
    }
  }

  /** And no live subject appears that was not one. */
  lemma RerelateCovered(ts: seq<Tuple>, k: Key, to: string, now: Instant)
    requires Rerelate(ts, k, to).Ok?
    ensures CoveredUpTo(LiveTuples(Rerelate(ts, k, to).value, now), LiveTuples(ts, now), k.objId)
  {
    var ts' := Rerelate(ts, k, to).value;
    var from, target := IndexOf(ts, k), IndexOf(ts, k.(relation := to));
    forall t | t in LiveTuples(ts', now)
      ensures if t.objId == k.objId then exists u :: u in LiveTuples(ts, now) && SameSubject(t, u)
              else t in LiveTuples(ts, now)
    {
      var i :| 0 <= i < |ts'| && ts'[i] == t;
      if k.relation == to {
        assert t in LiveTuples(ts, now) && SameSubject(t, t);
      } else if target == |ts| {
        assert ts[i] in LiveTuples(ts, now) && SameSubject(t, ts[i]);
      } else {
        MergeCovered(ts, from, target, i, now);
      }
    }
  }

  /** Changing a relation leaves the group graph as it was, at every instant. */
  lemma ChangeKeepsEdges(ts: seq<Tuple>, k: Key, to: string, now: Instant)
    requires Rerelate(ts, k, to).Ok?
    ensures Edges(LiveTuples(Rerelate(ts, k, to).value, now)) == Edges(LiveTuples(ts, now))
  {
    RerelateCovers(ts, k, to, now);
    RerelateCovered(ts, k, to, now);
    CoveredEdges(LiveTuples(ts, now), LiveTuples(Rerelate(ts, k, to).value, now), k.objId);
    CoveredEdges(LiveTuples(Rerelate(ts, k, to).value, now), LiveTuples(ts, now), k.objId);
  }

  /** And everyone is a member of the group exactly as before, at every instant. */
  lemma ChangeKeepsMembers(ts: seq<Tuple>, k: Key, to: string, now: Instant, email: string)
    requires Rerelate(ts, k, to).Ok?
    ensures HoldsIn(LiveTuples(Rerelate(ts, k, to).value, now), email, Pair(k.objId, MEMBER))
            <==> HoldsIn(LiveTuples(ts, now), email, Pair(k.objId, MEMBER))
  {
    var L, L' := LiveTuples(ts, now), LiveTuples(Rerelate(ts, k, to).value, now);
    RerelateCovers(ts, k, to, now);
    RerelateCovered(ts, k, to, now);
    if HoldsIn(L, email, Pair(k.objId, MEMBER)) {
      CoveredHolds(L, L', k.objId, email);
    } else if HoldsIn(L', email, Pair(k.objId, MEMBER)) {
      CoveredHolds(L', L, k.objId, email);
    }
  }

  // ── DeleteGroup ─────────────────────────────────────────────────────────────

  /** A chain none of whose entries mentions the group. */
  ghost predicate Avoids(c: seq<Tuple>, id: string) {
    forall t :: t in c ==> !Mentions(t, id)
  }

  /** After a group is deleted people hold exactly what some chain around it gives them. */
  lemma DeletedTokens(ts: seq<Tuple>, id: string, now: Instant, email: string, p: Pair)
    ensures var L, L' := LiveTuples(ts, now), LiveTuples(Filter(ts, NotMentioning(id)), now);
            p in Held(L', email) <==> exists c :: IsHeldBy(L, email, c, p) && Avoids(c, id)
  {
    var L, L' := LiveTuples(ts, now), LiveTuples(Filter(ts, NotMentioning(id)), now);
    FilterElements(ts, NotMentioning(id));
    HeldHasChain(L', email, p);
    if c :| IsHeldBy(L', email, c, p) {
      assert IsHeldBy(L, email, c, p) && Avoids(c, id);
    }
    if c :| IsHeldBy(L, email, c, p) && Avoids(c, id) {
      assert IsHeldBy(L', email, c, p);
    }
  }

  /** Nobody holds a deleted group, it counts nobody, and no manager token names it: created again, it starts empty. */
  lemma DeletedLeavesNothing(st: State, id: string, now: Instant, email: string, p: Pair)
    ensures var st' := WithoutGroup(st, id);
            var L := LiveTuples(st'.tuples, now);
            (p.group == id ==> p !in Held(L, email) && MemberTokens(L, p) == {})
            && id !in st'.groups && ManagersOf(st'.managers, id) == []
            && !InUse(st'.tuples, st'.managers, id)
  {
    var L := LiveTuples(WithoutGroup(st, id).tuples, now);
    FilterElements(st.tuples, NotMentioning(id));
    forall g | g in st.managers { FilterElements(st.managers[g], NotNaming(id)); }
    if p in Held(L, email) {
      var c :| IsHeldBy(L, email, c, p);
      assert c[|c| - 1] in L;
    }
    forall t | t in Reached(L, p) ensures p.group != id {
      var c :| IsReachedBy(L, p, c, t);
      assert c[|c| - 1] in L;
    }
  }

  // ── Moving between sources and adoption ─────────────────────────────────────

  lemma MovedKeys(ts: seq<Tuple>, from: Option<SourceId>, to: SourceId, now: Instant)
    ensures Keys(LiveTuples(MovedTuples(ts, from, to), now)) == Keys(LiveTuples(ts, now))
  {
    var moved := MovedTuples(ts, from, to);
    forall k | k in Keys(LiveTuples(ts, now)) ensures k in Keys(LiveTuples(moved, now)) {
      var t :| t in LiveTuples(ts, now) && KeyOf(t) == k;
      var i :| 0 <= i < |ts| && ts[i] == t;
      assert moved[i] in moved && Live(moved[i], now) && KeyOf(moved[i]) == k;
    }
    forall k | k in Keys(LiveTuples(moved, now)) ensures k in Keys(LiveTuples(ts, now)) {
      var t :| t in LiveTuples(moved, now) && KeyOf(t) == k;
      var i :| 0 <= i < |ts| && moved[i] == t;
      assert ts[i] in ts && Live(ts[i], now) && KeyOf(ts[i]) == k;
    }
  }

  /** After everything of a source has moved away, deleting the source removes nothing but the source. */
  lemma DeleteAfterMove(st: State, from: SourceId, to: SourceId)
    requires from != to
    ensures WithoutSource(Moved(st, Some(from), to), from)
         == Moved(st, Some(from), to).(sources := st.sources - {from})
  {
    MovedOwnsNothing(st.tuples, from, to);
    FilterAll(Moved(st, Some(from), to).tuples, NotOwnedBy(from));
  }

  /** Adopting a source, move and deletion together, changes nobody's tokens and no group's members. */
  lemma AdoptionKeepsTokens(st: State, from: SourceId, to: SourceId, now: Instant, email: string, p: Pair)
    requires from != to
    ensures var st' := WithoutSource(Moved(st, Some(from), to), from);
            Held(LiveTuples(st'.tuples, now), email) == Held(LiveTuples(st.tuples, now), email)
            && MemberTokens(LiveTuples(st'.tuples, now), p) == MemberTokens(LiveTuples(st.tuples, now), p)
            && st'.groups.Keys == st.groups.Keys
            && |st'.tuples| == |st.tuples|
  {
    DeleteAfterMove(st, from, to);
    MovedKeys(st.tuples, Some(from), to, now);
    KeysDecide(LiveTuples(Moved(st, Some(from), to).tuples, now), LiveTuples(st.tuples, now), email, p);
  }

  lemma MovedOwnsNothing(ts: seq<Tuple>, from: SourceId, to: SourceId)
    requires from != to
    ensures forall t :: t in MovedTuples(ts, Some(from), to) ==> t.sourceId != Some(from)
  {
    var moved := MovedTuples(ts, Some(from), to);
    forall t | t in moved ensures t.sourceId != Some(from) {
      var i :| 0 <= i < |ts| && t == moved[i];
    }
  }

  /** An empty import of a source owning nothing changes nothing. */
  lemma EmptyImport(st: State, sourceId: SourceId, descriptions: map<string, string>)
    requires forall t :: t in st.tuples ==> t.sourceId != Some(sourceId)
    requires forall id :: id in st.groups ==> st.groups[id].sourceId != Some(sourceId)
    ensures Replaced(st, sourceId, [], descriptions) == st
  {
    assert st.tuples + [] == st.tuples;
    FilterAll(st.tuples, KeptByImport(sourceId, ImportKeys([])));
    var groups := ImportedGroups(st.groups, ImportGroups([]), descriptions, sourceId);
    assert groups == st.groups;
    assert CleanedUp(groups, st.tuples, st.managers, sourceId) == groups;
  }

  /** A late run of the adopted source with nothing in it takes nothing away. */
  lemma EmptyImportAfterMove(st: State, from: SourceId, to: SourceId, descriptions: map<string, string>)
    requires from != to
    ensures var moved := Moved(st, Some(from), to);
            Replaced(moved, from, [], descriptions) == moved
  {
    MovedOwnsNothing(st.tuples, from, to);
    EmptyImport(Moved(st, Some(from), to), from, descriptions);
  }
}
