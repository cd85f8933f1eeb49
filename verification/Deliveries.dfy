// What a sync makes of the rows it is delivered, column by column, and when it is
// refused; what deleting and adopting a source leave (internal/sync/engine.go:58-211,
// internal/webserver/api_sync.go:252-275, internal/app.go:286-308).
module Deliveries {
  import opened Wrappers
  import opened Sequences
  import opened Text
  import opened Tokens
  import opened Patterns
  import opened Validate
  import opened Tuples
  import opened Transitions
  import opened ReplaceLaws
  import opened ChangeLaws
  import opened Steps
  import opened Rules
  import opened Requests

  // ── What a row says ─────────────────────────────────────────────────────────

  /** The relation is configured; blanks around it do not count, and none at all is membership. */
  predicate Reads(cfg: Config, relation: string, r: string) {
    r in cfg.relations && (TrimSpace(relation) == r || (TrimSpace(relation) == "" && r == MEMBER))
  }

  /** The row puts the key's subject into the key's group under its relation. */
  predicate Says(cfg: Config, p: TuplePair, k: Key) {
    p.groupId == k.objId && p.kind == k.kind && NamesSubject(p.memberId, k) && Reads(cfg, p.relation, k.relation)
    && if k.kind == Subgroup then k.subjRel in cfg.relations && '#' !in k.subjId else k.subjRel == ""
  }

  lemma CheckedReads(cfg: Config, relation: string, r: string)
    requires ValidConfig(cfg)
    ensures CheckRelation(cfg, relation) == Ok(r) <==> Reads(cfg, relation, r)
  {
    if Reads(cfg, relation, r) && TrimSpace(relation) == r {
      assert ValidRelationName(r);
    }
  }

  lemma SaidGroup(cfg: Config, p: TuplePair, k: Key)
    requires Says(cfg, p, k) && k.kind == Subgroup
    ensures MemberGroup(p.memberId) == (k.subjId, NormalizeRelation(k.subjRel))
  {
    var id, x := p.memberId, k.subjId;
    if id == x + "#" + k.subjRel {
      assert id[|x|] == '#';
      forall j | 0 <= j < |x| ensures id[j] != '#' {
        assert id[j] == x[j] && x[j] in x;
      }
      assert Find(id, '#') == |x| && id[..|x|] == x && id[|x| + 1..] == k.subjRel;
    } else {
      assert Find(id, '#') == |id| && id[..|id|] == id;
    }
  }

  lemma NormalizedRow(p: TuplePair)
    requires ValidPair(p)
    ensures NormalizedPair(p) == p
  {
    GroupIdChars(p.groupId);
    NormalizeKeeps(p.groupId);
    MemberChars(p.kind, p.memberId);
    NormalizeKeeps(p.memberId);
  }

  /** What is stored of a row is what it says: its group, its subject with the relation named, its own relation. */
  lemma StoredAsSaid(cfg: Config, p: TuplePair)
    requires ValidConfig(cfg) && ValidPair(p)
    ensures match PreparedPair(cfg, p)
            case Ok(q) => q.groupId == p.groupId && Says(cfg, p, PairKey(q))
            case Err(_) => forall k :: !Says(cfg, p, k)
  {
    NormalizedRow(p);
    match CheckRelation(cfg, p.relation)
    case Ok(rel) =>
      CheckedReads(cfg, p.relation, rel);
      if p.kind == Subgroup {
        StoredGroupAsSaid(cfg, p, rel);
      }
    case Err(_) =>
      forall k | Says(cfg, p, k) ensures false {
        CheckedReads(cfg, p.relation, k.relation);
      }
  }

  /** A valid member id is its group with its relation behind it, or the group alone for plain membership. */
  lemma NamedAsWritten(id: string)
    requires ValidMember(Subgroup, id)
    ensures var (group, relation) := MemberGroup(id);
            id == group + "#" + relation || (relation == MEMBER && id == group)
  {
    var i := Find(id, '#');
    if i < |id| {
      assert id == id[..i] + "#" + id[i + 1..];
    }
  }

  lemma StoredGroupAsSaid(cfg: Config, p: TuplePair, rel: string)
    requires ValidConfig(cfg) && ValidPair(p) && p.kind == Subgroup && CheckRelation(cfg, p.relation) == Ok(rel)
    requires rel != "" && Reads(cfg, p.relation, rel)
    ensures match CheckedPair(cfg, p)
            case Ok(q) => q.groupId == p.groupId && Says(cfg, p, PairKey(q))
            case Err(_) => forall k :: !Says(cfg, p, k)
  {
    var (group, memberRel) := MemberGroup(p.memberId);
    JoinSplit(p.memberId);
    CheckedName(cfg, p.memberId, memberRel);
    if memberRel in cfg.relations {
      SplitJoin(group, memberRel);
      NamedAsWritten(p.memberId);
    } else {
      forall k | Says(cfg, p, k) ensures false {
        SaidGroup(cfg, p, k);
      }
    }
  }

  /** A row says one thing at most. */
  lemma SaysOne(cfg: Config, p: TuplePair, k: Key, l: Key)
    requires ValidConfig(cfg) && Says(cfg, p, k) && Says(cfg, p, l)
    ensures k == l
  {
    assert ValidRelationName(k.relation) && ValidRelationName(l.relation);
    if k.kind == Subgroup {
      assert ValidRelationName(k.subjRel) && ValidRelationName(l.subjRel);
      SaidGroup(cfg, p, k);
      SaidGroup(cfg, p, l);
    }
  }

  /** A row is valid and every relation in it is configured. */
  ghost predicate Storable(cfg: Config, p: TuplePair) {
    ValidPair(p) && exists k :: Says(cfg, p, k)
  }

  /** Some row says so. */
  ghost predicate Delivered(cfg: Config, rows: seq<TuplePair>, k: Key) {
    exists p :: p in rows && Says(cfg, p, k)
  }

  /** The group of some row. */
  predicate IsFilled(rows: seq<TuplePair>, id: string) {
    exists p :: p in rows && p.groupId == id
  }

  lemma DeliveredMore(cfg: Config, rows: seq<TuplePair>, p: TuplePair, k: Key)
    ensures Delivered(cfg, rows + [p], k) <==> Delivered(cfg, rows, k) || Says(cfg, p, k)
    ensures IsFilled(rows + [p], k.objId) <==> IsFilled(rows, k.objId) || p.groupId == k.objId
  {
    assert p in rows + [p];
    assert forall q :: q in rows ==> q in rows + [p];
    assert forall q :: q in rows + [p] ==> q in rows || q == p;
  }

  lemma {:induction false} RowsDelivered(cfg: Config, rows: seq<TuplePair>, k: Key)
    requires ValidConfig(cfg) && forall p :: p in rows ==> ValidPair(p)
    ensures match PreparedPairs(cfg, rows)
            case Ok(prepared) =>
              (k in ImportKeys(prepared) <==> Delivered(cfg, rows, k))
              && (k.objId in ImportGroups(prepared) <==> IsFilled(rows, k.objId))
            case Err(_) => true
  {
    if rows != [] {
      var init, p := rows[..|rows| - 1], rows[|rows| - 1];
      InitAndLast(rows);
      RowsDelivered(cfg, init, k);
      DeliveredMore(cfg, init, p, k);
      StoredAsSaid(cfg, p);
      if PreparedPairs(cfg, rows).Ok? {
        var prepared, q := PreparedPairs(cfg, init).value, PreparedPair(cfg, p).value;
        KeysOneMore(prepared, q);
        if Says(cfg, p, k) {
          SaysOne(cfg, p, k, PairKey(q));
        }
      }
    }
  }

  lemma {:induction false} PreparedIff(cfg: Config, rows: seq<TuplePair>)
    requires ValidConfig(cfg) && forall p :: p in rows ==> ValidPair(p)
    ensures PreparedPairs(cfg, rows).Ok? <==> forall p :: p in rows ==> Storable(cfg, p)
  {
    if rows != [] {
      var init, p := rows[..|rows| - 1], rows[|rows| - 1];
      InitAndLast(rows);
      PreparedIff(cfg, init);
      StoredAsSaid(cfg, p);
      assert PreparedPair(cfg, p).Ok? <==> Storable(cfg, p);
      assert forall q :: q in rows <==> q in init || q == p;
    }
  }

  // ── A sync ──────────────────────────────────────────────────────────────────

  /** The group is the source's or there is none yet, and no other source has reserved its id. */
  ghost predicate MayFill(st: State, source: SourceId, id: string) {
    (id in st.groups ==> st.groups[id].sourceId == Some(source))
    && forall s, glob :: s in st.sources && s != source && glob in st.sources[s].reserved ==> !GlobMatches(glob, id)
  }

  /** A sync is accepted exactly if its source is known and not the local one, and every row may be stored. */
  lemma AcceptedIff(cfg: Config, st: State, source: SourceId, rows: seq<TuplePair>, descriptions: map<string, string>)
    requires ValidConfig(cfg)
    ensures RunSync(cfg, st, source, rows, descriptions).Ok?
            <==> source in st.sources && st.sources[source].typ != Local
                 && forall p :: p in rows ==> Storable(cfg, p) && MayFill(st, source, p.groupId)
  {
    if forall p :: p in rows ==> ValidPair(p) {
      PreparedIff(cfg, rows);
      if PreparedPairs(cfg, rows).Ok? {
        var prepared := PreparedPairs(cfg, rows).value;
        forall id ensures id in ImportGroups(prepared) <==> IsFilled(rows, id) {
          RowsDelivered(cfg, rows, Key(id, "", User, "", ""));
        }
        FillsIff(st, source, rows, prepared);
      }
    }
  }

  lemma FillsIff(st: State, source: SourceId, rows: seq<TuplePair>, prepared: seq<TuplePair>)
    requires forall id :: id in ImportGroups(prepared) <==> IsFilled(rows, id)
    ensures (forall id :: id in ImportGroups(prepared) ==> MayWrite(st, source, id))
            <==> forall p :: p in rows ==> MayFill(st, source, p.groupId)
  {
    forall p | p in rows ensures p.groupId in ImportGroups(prepared) {
      assert IsFilled(rows, p.groupId);
    }
    forall id ensures MayWrite(st, source, id) <==> MayFill(st, source, id) {
    }
  }

  /** The source stores this. */
  ghost predicate Stores(ts: seq<Tuple>, source: SourceId, k: Key) {
    exists t :: t in ts && t.sourceId == Some(source) && At(t, k)
  }

  lemma StoresKey(ts: seq<Tuple>, source: SourceId, k: Key)
    ensures Stores(ts, source, k) <==> k in SourceKeys(ts, source)
  {
    if t :| t in ts && t.sourceId == Some(source) && KeyOf(t) == k {
      assert At(t, k);
    }
  }

  /** After an accepted sync the source stores exactly what the rows say. */
  lemma SyncedKeys(cfg: Config, st: State, after: State, source: SourceId, rows: seq<TuplePair>,
                   descriptions: map<string, string>, k: Key)
    requires ValidConfig(cfg) && RunSync(cfg, st, source, rows, descriptions) == Ok(after)
    ensures Stores(after.tuples, source, k) <==> Delivered(cfg, rows, k)
  {
    var prepared := PreparedPairs(cfg, rows).value;
    assert after.tuples == Replaced(st, source, prepared, descriptions).tuples;
    assert after.tuples == ImportedTuples(st.tuples, prepared, source);
    ImportedKeys(st.tuples, prepared, source);
    StoresKey(after.tuples, source, k);
    RowsDelivered(cfg, rows, k);
  }

  /** What stays of the rows: everyone else's, and of the source's own what is still said. */
  ghost predicate Stays(cfg: Config, source: SourceId, rows: seq<TuplePair>, t: Tuple) {
    t.sourceId == Some(source) ==> exists k :: At(t, k) && Delivered(cfg, rows, k)
  }

  /**
   * The rows afterwards: those that stay, as they were and in order, and behind them one without an end for each thing
   * said that the source had not stored.
   */
  lemma SyncedRows(cfg: Config, st: State, after: State, source: SourceId, rows: seq<TuplePair>,
                   descriptions: map<string, string>) returns (at: seq<nat>)
    requires ValidConfig(cfg) && RunSync(cfg, st, source, rows, descriptions) == Ok(after)
    ensures |at| <= |after.tuples| && PicksOut(at, st.tuples, after.tuples[..|at|])
    ensures forall i: nat :: i < |st.tuples| ==> (i in at <==> Stays(cfg, source, rows, st.tuples[i]))
    ensures forall t :: t in after.tuples[|at|..] ==> t.sourceId == Some(source) && t.expires == None
    ensures UniqueKeys(after.tuples[|at|..])
    ensures forall k :: (exists t :: t in after.tuples[|at|..] && At(t, k))
                        <==> Delivered(cfg, rows, k) && !Stores(st.tuples, source, k)
  {
    var prepared := PreparedPairs(cfg, rows).value;
    var keys, existing := ImportKeys(prepared), SourceKeys(st.tuples, source);
    var additions := Additions(prepared, existing, source);
    ImportedSplits(st.tuples, prepared, source);
    AdditionsOwned(prepared, existing, source);
    AdditionsAreNewKeys(prepared, existing, source);
    at := FilterPicks(st.tuples, KeptByImport(source, keys));
    assert after.tuples[..|at|] == Filter(st.tuples, KeptByImport(source, keys)) && after.tuples[|at|..] == additions;
    forall i: nat | i < |st.tuples| ensures i in at <==> Stays(cfg, source, rows, st.tuples[i]) {
      StaysIff(cfg, source, rows, st.tuples[i]);
    }
    forall k
      ensures (exists t :: t in additions && At(t, k)) <==> Delivered(cfg, rows, k) && !Stores(st.tuples, source, k)
    {
      RowsDelivered(cfg, rows, k);
      StoresKey(st.tuples, source, k);
      AddedAt(additions, k);
    }
  }

  lemma StaysIff(cfg: Config, source: SourceId, rows: seq<TuplePair>, t: Tuple)
    requires ValidConfig(cfg) && (forall p :: p in rows ==> ValidPair(p)) && PreparedPairs(cfg, rows).Ok?
    ensures Stays(cfg, source, rows, t) <==> KeptByImport(source, ImportKeys(PreparedPairs(cfg, rows).value))(t)
  {
    RowsDelivered(cfg, rows, KeyOf(t));
    assert At(t, KeyOf(t));
    forall k | At(t, k) ensures k == KeyOf(t) {
    }
  }

  lemma AddedAt(ts: seq<Tuple>, k: Key)
    ensures (exists t :: t in ts && At(t, k)) <==> k in KeySet(ts)
  {
    if t :| t in ts && KeyOf(t) == k {
      assert At(t, k);
    }
  }

  /** A person is answered what a new row says of them, at any time. */
  lemma SyncedHolds(cfg: Config, st: State, after: State, source: SourceId, rows: seq<TuplePair>,
                    descriptions: map<string, string>, k: Key, now: Instant, email: string, n: nat)
    requires ValidConfig(cfg) && RunSync(cfg, st, source, rows, descriptions) == Ok(after)
    requires Delivered(cfg, rows, k) && !Stores(st.tuples, source, k) && SubjectHolds(after.tuples, now, email, k, n)
    ensures Has(after.tuples, now, email, k.objId, k.relation, n)
    ensures AnsweredTo(after.tuples, now, email, GroupToken(k.objId, k.relation))
  {
    var at := SyncedRows(cfg, st, after, source, rows, descriptions);
    var t :| t in after.tuples[|at|..] && At(t, k);
    var p :| p in rows && Says(cfg, p, k);
    assert ValidRelationName(k.relation);
    RowHolds(after.tuples, now, email, t, k, n);
  }

  /** Nothing is left of the group: no row about it or entering it, no manager, no manager token of its own. */
  ghost predicate IsEmpty(ts: seq<Tuple>, managers: map<string, seq<string>>, id: string) {
    (forall t :: t in ts ==> t.objId != id && (t.kind == Subgroup ==> t.subjId != id))
    && (id in managers ==> managers[id] == [])
    && forall g, token :: g in managers && token in managers[g] ==> ManagedGroupName(token) != Some(id)
  }

  /**
   * Groups afterwards: one for every id the rows fill, and of the others all but the source's own that are empty then.
   * A new one is named by its id and belongs to the source; of one that was there only the description may change, to
   * the one delivered.
   */
  lemma SyncedGroups(cfg: Config, st: State, after: State, source: SourceId, rows: seq<TuplePair>,
                     descriptions: map<string, string>, id: string)
    requires ValidConfig(cfg) && RunSync(cfg, st, source, rows, descriptions) == Ok(after)
    ensures after.sources == st.sources && after.managers == st.managers
    ensures id in after.groups
            <==> IsFilled(rows, id)
                 || (id in st.groups
                     && !(st.groups[id].sourceId == Some(source) && IsEmpty(after.tuples, st.managers, id)))
    ensures id in after.groups && id !in st.groups ==>
              after.groups[id] == Group(id, if id in descriptions then descriptions[id] else "", Some(source))
    ensures id in after.groups && id in st.groups ==>
              after.groups[id] == if IsFilled(rows, id) && id in descriptions
                                  then st.groups[id].(description := descriptions[id]) else st.groups[id]
  {
    var prepared := PreparedPairs(cfg, rows).value;
    RowsDelivered(cfg, rows, Key(id, "", User, "", ""));
    assert after == Replaced(st, source, prepared, descriptions);
    OwnersKept(st, source, prepared, descriptions, id);
    if id in st.groups {
      DeletedExactly(st, source, prepared, descriptions, id);
    }
  }

  // ── Sources that go ─────────────────────────────────────────────────────────

  /** The row with its owner replaced, if it is this one. */
  function HandedOver(t: Tuple, owner: Option<SourceId>, to: SourceId): Tuple {
    if t.sourceId == owner then t.(sourceId := Some(to)) else t
  }

  /** Every group stays; those of an owner that goes belong to the local source and are otherwise as they were. */
  predicate OwnersPassOn(cfg: Config, groups: map<string, Group>, groups': map<string, Group>,
                         owners: set<Option<SourceId>>) {
    groups'.Keys == groups.Keys
    && forall id :: id in groups ==>
         groups'[id] == if groups[id].sourceId in owners then groups[id].(sourceId := Some(cfg.localId)) else groups[id]
  }

  /**
   * Deleting a source takes its rows and no other, in order; its groups, and those of no source, pass to the local
   * source with the rows of no source.
   */
  lemma DeletedSource(cfg: Config, st: State, source: SourceId) returns (at: seq<nat>)
    ensures DeleteSource(cfg, st, source).Ok? <==> source in st.sources && st.sources[source].typ != Local
    ensures match DeleteSource(cfg, st, source)
            case Ok(after) =>
              after.sources == st.sources - {source} && after.managers == st.managers
              && OwnersPassOn(cfg, st.groups, after.groups, {Some(source), None})
              && |at| == |after.tuples|
              && (forall n :: 0 <= n < |at| ==>
                    at[n] < |st.tuples| && after.tuples[n] == HandedOver(st.tuples[at[n]], None, cfg.localId))
              && (forall m, n :: 0 <= m < n < |at| ==> at[m] < at[n])
              && forall i: nat :: i < |st.tuples| ==> (i in at <==> st.tuples[i].sourceId != Some(source))
            case Err(_) => true
  {
    at := FilterPicks(st.tuples, NotOwnedBy(source));
  }

  /** Adopting a file source passes its groups and rows on, each in its place, and takes the source away. */
  lemma AdoptedSource(cfg: Config, st: State, source: SourceId)
    requires source != cfg.localId
    ensures AdoptSource(cfg, st, source).Ok?
            <==> source in st.sources && (st.sources[source].typ == Csv || st.sources[source].typ == Ldif)
    ensures match AdoptSource(cfg, st, source)
            case Ok(after) =>
              after.sources == st.sources - {source} && after.managers == st.managers
              && OwnersPassOn(cfg, st.groups, after.groups, {Some(source)})
              && |after.tuples| == |st.tuples|
              && forall i :: 0 <= i < |st.tuples| ==>
                   after.tuples[i] == HandedOver(st.tuples[i], Some(source), cfg.localId)
            case Err(_) => true
  {
    DeleteAfterMove(st, source, cfg.localId);
  }

  /** Groups and rows of no source pass to the local one, each in its place; everything else stays. */
  lemma OrphansPassOn(cfg: Config, st: State)
    ensures var after := Moved(st, None, cfg.localId);
            after.sources == st.sources && after.managers == st.managers
            && OwnersPassOn(cfg, st.groups, after.groups, {None})
            && |after.tuples| == |st.tuples|
            && forall i :: 0 <= i < |st.tuples| ==> after.tuples[i] == HandedOver(st.tuples[i], None, cfg.localId)
  {
  }

  // ── Sources that come or change ─────────────────────────────────────────────

  /** A glob matches a group that belongs to somebody else, or to nobody. */
  ghost predicate TakesNames(st: State, owner: Option<SourceId>, reserved: seq<string>) {
    exists id, glob ::
      id in st.groups && glob in reserved && GlobMatches(glob, id)
      && (owner == None || st.groups[id].sourceId != owner)
  }

  /** A source is registered exactly under a free id, for files, and if its reserved names take no group's. */
  lemma RegisteredSource(st: State, id: SourceId, source: Source)
    ensures match CreateSource(st, id, source)
            case Ok(after) =>
              id !in st.sources && source.typ in {Csv, Ldif} && !TakesNames(st, None, source.reserved)
              && after.sources.Keys == st.sources.Keys + {id} && after.sources[id] == source
              && (forall other :: other in st.sources ==> after.sources[other] == st.sources[other])
              && after.groups == st.groups && after.tuples == st.tuples && after.managers == st.managers
            case Err(_) => id in st.sources || source.typ !in {Csv, Ldif} || TakesNames(st, None, source.reserved)
  {
    assert ReservationTaken(st, None, source.reserved) <==> TakesNames(st, None, source.reserved);
  }

  /**
   * Name and reserved names of a source change, its type does not, and nothing else; the local source is not changed.
   */
  lemma ChangedSource(st: State, id: SourceId, name: string, reserved: seq<string>)
    ensures match UpdateSource(st, id, name, reserved)
            case Ok(after) =>
              id in st.sources && st.sources[id].typ != Local && !TakesNames(st, Some(id), reserved)
              && after.sources.Keys == st.sources.Keys
              && after.sources[id] == Source(name, st.sources[id].typ, reserved)
              && (forall other :: other in st.sources && other != id ==> after.sources[other] == st.sources[other])
              && after.groups == st.groups && after.tuples == st.tuples && after.managers == st.managers
            case Err(_) => id !in st.sources || st.sources[id].typ == Local || TakesNames(st, Some(id), reserved)
  {
    assert ReservationTaken(st, Some(id), reserved) <==> TakesNames(st, Some(id), reserved);
  }
}
