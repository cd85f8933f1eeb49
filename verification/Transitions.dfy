// What each store operation does to the state, as functions of the old state;
// the methods of MemoryStore are proved against these.
module Transitions {
  import opened Wrappers
  import opened Sequences
  import opened Tokens
  import opened Tuples

  // ── Entries ─────────────────────────────────────────────────────────────────

  /** The first position of a tuple with this key, or |ts|. */
  function IndexOf(ts: seq<Tuple>, k: Key): (i: nat)
    ensures i <= |ts|
    ensures i < |ts| ==> KeyOf(ts[i]) == k
    ensures forall j :: 0 <= j < i ==> KeyOf(ts[j]) != k
  {
    if ts == [] then 0
    else if KeyOf(ts[0]) == k then 0
    else
      var i := IndexOf(ts[1..], k);
      assert forall j :: 0 < j < |ts| ==> ts[j] == ts[1..][j - 1];
      i + 1
  }

  /** Adding an entry that exists sets its expiry and nothing else. */
  function Upsert(ts: seq<Tuple>, k: Key, sourceId: Option<SourceId>, expires: Option<Instant>): seq<Tuple> {
    var i := IndexOf(ts, k);
    if i < |ts| then ts[i := ts[i].(expires := expires)] else ts + [NewTuple(k, sourceId, expires)]
  }

  function NotKey(k: Key): Tuple -> bool {
    t => KeyOf(t) != k
  }

  function WithoutKey(ts: seq<Tuple>, k: Key): seq<Tuple> {
    Filter(ts, NotKey(k))
  }

  /** The longer of two validities; no end is the longest. */
  function LaterExpiry(a: Option<Instant>, b: Option<Instant>): Option<Instant> {
    if a == None || b == None then None
    else if a.value > b.value then a
    else b
  }

  function Without(ts: seq<Tuple>, i: nat): seq<Tuple>
    requires i < |ts|
  {
    ts[..i] + ts[i + 1..]
  }

  /** Moves the entry at key k to another relation, merging it into an entry already there. */
  function Rerelate(ts: seq<Tuple>, k: Key, to: string): Result<seq<Tuple>> {
    var from := IndexOf(ts, k);
    var target := IndexOf(ts, k.(relation := to));
    if from == |ts| then Err(NotFound)
    else if k.relation == to then Ok(ts)
    else if target == |ts| then Ok(ts[from := ts[from].(relation := to)])
    else
      var merged := ts[target].(expires := LaterExpiry(ts[from].expires, ts[target].expires));
      Ok(Without(ts[target := merged], from))
  }

  // ── Groups and sources ──────────────────────────────────────────────────────

  function NotMentioning(id: string): Tuple -> bool {
    t => !Mentions(t, id)
  }

  function NotNaming(id: string): string -> bool {
    token => ManagedGroupName(token) != Some(id)
  }

  function ManagersWithout(managers: map<string, seq<string>>, id: string): map<string, seq<string>> {
    map g | g in managers && g != id :: Filter(managers[g], NotNaming(id))
  }

  function WithoutGroup(st: State, id: string): State {
    st.(groups := st.groups - {id},
        tuples := Filter(st.tuples, NotMentioning(id)),
        managers := ManagersWithout(st.managers, id))
  }

  function ManagersOf(managers: map<string, seq<string>>, id: string): seq<string> {
    if id in managers then managers[id] else []
  }

  function WithManager(managers: map<string, seq<string>>, id: string, token: string): map<string, seq<string>> {
    if token in ManagersOf(managers, id) then managers
    else managers[id := ManagersOf(managers, id) + [token]]
  }

  function NotOwnedBy(sourceId: SourceId): Tuple -> bool {
    (t: Tuple) => t.sourceId != Some(sourceId)
  }

  function Orphaned(g: Group, sourceId: SourceId): Group {
    if g.sourceId == Some(sourceId) then g.(sourceId := None) else g
  }

  /** Deleting a source drops its tuples and leaves its groups to no source. */
  function WithoutSource(st: State, sourceId: SourceId): State {
    st.(groups := OrphanedGroups(st.groups, sourceId),
        sources := st.sources - {sourceId},
        tuples := Filter(st.tuples, NotOwnedBy(sourceId)))
  }

  function OrphanedGroups(groups: map<string, Group>, sourceId: SourceId): map<string, Group> {
    map id | id in groups :: Orphaned(groups[id], sourceId)
  }

  function MovedGroup(g: Group, from: Option<SourceId>, to: SourceId): Group {
    if g.sourceId == from then g.(sourceId := Some(to)) else g
  }

  function MovedTuple(t: Tuple, from: Option<SourceId>, to: SourceId): Tuple {
    if t.sourceId == from then t.(sourceId := Some(to)) else t
  }

  function MovedGroups(groups: map<string, Group>, from: Option<SourceId>, to: SourceId): map<string, Group> {
    map id | id in groups :: MovedGroup(groups[id], from, to)
  }

  function OwnedGroups(groups: map<string, Group>, owner: Option<SourceId>): set<string> {
    set id | id in groups && groups[id].sourceId == owner
  }

  function MovedTuples(ts: seq<Tuple>, from: Option<SourceId>, to: SourceId): (r: seq<Tuple>)
    ensures |r| == |ts|
  {
    seq(|ts|, i requires 0 <= i < |ts| => MovedTuple(ts[i], from, to))
  }

  /** Everything one source owns (None: what no source owns) passes to another. */
  function Moved(st: State, from: Option<SourceId>, to: SourceId): State {
    st.(groups := MovedGroups(st.groups, from, to),
        tuples := MovedTuples(st.tuples, from, to))
  }

  lemma MovedTuplesWellFormed(ts: seq<Tuple>, from: Option<SourceId>, to: SourceId)
    requires WellFormed(ts)
    ensures WellFormed(MovedTuples(ts, from, to))
  {
    forall t | t in MovedTuples(ts, from, to) ensures WellFormedKey(KeyOf(t)) {
      var i :| 0 <= i < |ts| && t == MovedTuple(ts[i], from, to);
      assert KeyOf(t) == KeyOf(ts[i]);
      assert ts[i] in ts;
    }
  }

  // ── Imports ─────────────────────────────────────────────────────────────────

  function ImportKeys(pairs: seq<TuplePair>): set<Key> {
    set p | p in pairs :: PairKey(p)
  }

  function ImportGroups(pairs: seq<TuplePair>): set<string> {
    set p | p in pairs :: p.groupId
  }

  function SourceKeys(ts: seq<Tuple>, sourceId: SourceId): set<Key> {
    set t | t in ts && t.sourceId == Some(sourceId) :: KeyOf(t)
  }

  /** The tuples an import adds: one per key that is neither stored for the source nor earlier in the import. */
  function Additions(pairs: seq<TuplePair>, existing: set<Key>, sourceId: SourceId): seq<Tuple> {
    if pairs == [] then []
    else
      var init := pairs[..|pairs| - 1];
      var k := PairKey(pairs[|pairs| - 1]);
      Additions(init, existing, sourceId)
      + if k in existing || k in ImportKeys(init) then [] else [NewTuple(k, Some(sourceId), None)]
  }

  function DescriptionOf(descriptions: map<string, string>, id: string): string {
    if id in descriptions then descriptions[id] else ""
  }

  function ImportedGroup(groups: map<string, Group>, ids: set<string>, descriptions: map<string, string>,
                         sourceId: SourceId, id: string): Group
    requires id in groups || id in ids
  {
    if id !in groups then Group(id, DescriptionOf(descriptions, id), Some(sourceId))
    else if id in ids && id in descriptions then groups[id].(description := descriptions[id])
    else groups[id]
  }

  /** Missing groups are created for the source; descriptions of the others follow the import. */
  function ImportedGroups(groups: map<string, Group>, ids: set<string>, descriptions: map<string, string>,
                          sourceId: SourceId): map<string, Group> {
    map id | id in groups.Keys + ids :: ImportedGroup(groups, ids, descriptions, sourceId, id)
  }

  /** How far the first loop of a sync has come. */
  datatype ImportState = ImportState(groups: map<string, Group>, tuples: seq<Tuple>, keys: set<Key>, added: nat)

  /** One row: skipped when its key came before, else its group is brought up to date and a missing tuple appended. */
  function ImportStep(s: ImportState, p: TuplePair, existing: set<Key>, descriptions: map<string, string>,
                      sourceId: SourceId): ImportState {
    var k := PairKey(p);
    if k in s.keys then s
    else
      var groups := ImportedGroups(s.groups, {p.groupId}, descriptions, sourceId);
      if k in existing then ImportState(groups, s.tuples, s.keys + {k}, s.added)
      else ImportState(groups, s.tuples + [NewTuple(k, Some(sourceId), None)], s.keys + {k}, s.added + 1)
  }

  function ImportRows(s: ImportState, pairs: seq<TuplePair>, existing: set<Key>, descriptions: map<string, string>,
                      sourceId: SourceId): ImportState {
    if pairs == [] then s
    else
      var before := ImportRows(s, pairs[..|pairs| - 1], existing, descriptions, sourceId);
      ImportStep(before, pairs[|pairs| - 1], existing, descriptions, sourceId)
  }

  /** Importing groups one after the other is importing them together. */
  lemma ImportedGroupsOneMore(groups: map<string, Group>, ids: set<string>, id: string,
                              descriptions: map<string, string>, sourceId: SourceId)
    ensures ImportedGroups(ImportedGroups(groups, ids, descriptions, sourceId), {id}, descriptions, sourceId)
         == ImportedGroups(groups, ids + {id}, descriptions, sourceId)
  {
  }

  lemma KeysOneMore(init: seq<TuplePair>, p: TuplePair)
    ensures ImportKeys(init + [p]) == ImportKeys(init) + {PairKey(p)}
    ensures ImportGroups(init + [p]) == ImportGroups(init) + {p.groupId}
    ensures PairKey(p) in ImportKeys(init) ==> p.groupId in ImportGroups(init)
  {
    if PairKey(p) in ImportKeys(init) {
      var q :| q in init && PairKey(q) == PairKey(p);
      assert q.groupId == p.groupId;
    }
  }

  lemma {:induction false} ImportRowsGroups(groups: map<string, Group>, ts: seq<Tuple>, pairs: seq<TuplePair>,
                                            existing: set<Key>, descriptions: map<string, string>, sourceId: SourceId)
    ensures var end := ImportRows(ImportState(groups, ts, {}, 0), pairs, existing, descriptions, sourceId);
            end.keys == ImportKeys(pairs)
            && end.groups == ImportedGroups(groups, ImportGroups(pairs), descriptions, sourceId)
  {
    if pairs != [] {
      var init, p := pairs[..|pairs| - 1], pairs[|pairs| - 1];
      ImportRowsGroups(groups, ts, init, existing, descriptions, sourceId);
      assert pairs == init + [p];
      KeysOneMore(init, p);
      ImportedGroupsOneMore(groups, ImportGroups(init), p.groupId, descriptions, sourceId);
      if PairKey(p) in ImportKeys(init) {
        assert ImportGroups(pairs) == ImportGroups(init) && ImportKeys(pairs) == ImportKeys(init);
      }
    }
  }

  /** The row-by-row loop appends exactly the additions. */
  lemma {:induction false} ImportRowsTuples(groups: map<string, Group>, ts: seq<Tuple>, pairs: seq<TuplePair>,
                                            existing: set<Key>, descriptions: map<string, string>, sourceId: SourceId)
    ensures var end := ImportRows(ImportState(groups, ts, {}, 0), pairs, existing, descriptions, sourceId);
            var additions := Additions(pairs, existing, sourceId);
            end.tuples == ts + additions && end.added == |additions|
  {
    if pairs != [] {
      var init, p := pairs[..|pairs| - 1], pairs[|pairs| - 1];
      ImportRowsTuples(groups, ts, init, existing, descriptions, sourceId);
      ImportRowsGroups(groups, ts, init, existing, descriptions, sourceId);
      ConcatAssociative(ts, Additions(init, existing, sourceId), [NewTuple(PairKey(p), Some(sourceId), None)]);
    }
  }

  function KeptByImport(sourceId: SourceId, keys: set<Key>): Tuple -> bool {
    (t: Tuple) => t.sourceId == Some(sourceId) ==> KeyOf(t) in keys
  }

  function ImportedTuples(ts: seq<Tuple>, pairs: seq<TuplePair>, sourceId: SourceId): seq<Tuple> {
    Filter(ts + Additions(pairs, SourceKeys(ts, sourceId), sourceId),
           KeptByImport(sourceId, ImportKeys(pairs)))
  }

  /** Something still points at the group: an entry on either side, or a manager token naming it. */
  ghost predicate InUse(tuples: seq<Tuple>, managers: map<string, seq<string>>, id: string) {
    (exists t :: t in tuples && Mentions(t, id))
    || (exists g, token :: g in managers && token in managers[g] && ManagedGroupName(token) == Some(id))
  }

  /** A group of the source with nothing in it and nothing pointing at it. */
  ghost predicate Abandoned(groups: map<string, Group>, tuples: seq<Tuple>, managers: map<string, seq<string>>,
                            sourceId: SourceId, id: string) {
    id in groups && groups[id].sourceId == Some(sourceId)
    && ManagersOf(managers, id) == [] && !InUse(tuples, managers, id)
  }

  ghost function CleanedUp(groups: map<string, Group>, tuples: seq<Tuple>, managers: map<string, seq<string>>,
                           sourceId: SourceId): map<string, Group> {
    map id | id in groups && !Abandoned(groups, tuples, managers, sourceId, id) :: groups[id]
  }

  /** A sync: the source's tuples become the import, and its abandoned groups go. */
  ghost function Replaced(st: State, sourceId: SourceId, pairs: seq<TuplePair>,
                          descriptions: map<string, string>): State {
    var tuples := ImportedTuples(st.tuples, pairs, sourceId);
    var groups := ImportedGroups(st.groups, ImportGroups(pairs), descriptions, sourceId);
    st.(tuples := tuples, groups := CleanedUp(groups, tuples, st.managers, sourceId))
  }
}
