// What every serial run keeps: one writer per group, unique keys, valid ids,
// managers that name existing groups, and reserved names.
module Invariants {
  import opened Wrappers
  import opened Sequences
  import opened Text
  import opened Tokens
  import opened Patterns
  import opened Validate
  import opened Tuples
  import opened Resolution
  import opened UserTokens
  import opened Transitions
  import opened ReplaceLaws
  import opened Steps

  // ── The invariants ──────────────────────────────────────────────────────────

  /** Every tuple's group exists and has the tuple's source: a group has exactly one writer. */
  ghost predicate SingleWriter(st: State) {
    forall t :: t in st.tuples ==> t.objId in st.groups && st.groups[t.objId].sourceId == t.sourceId
  }

  predicate ValidSubject(cfg: Config, k: Key) {
    match k.kind
    case User => ValidEmail(k.subjId) && k.subjRel == ""
    case Pattern => ValidPattern(k.subjId) && k.subjRel == ""
    case Subgroup => ValidGroupId(k.subjId) && k.subjRel in cfg.relations
  }

  predicate ValidKey(cfg: Config, k: Key) {
    ValidGroupId(k.objId) && k.relation in cfg.relations && ValidSubject(cfg, k)
  }

  ghost predicate ValidIds(cfg: Config, st: State) {
    (forall id :: id in st.groups ==> ValidGroupId(id))
    && (forall t :: t in st.tuples ==> ValidKey(cfg, KeyOf(t)))
  }

  /** The token names, if a group, an existing one. */
  predicate NamesExisting(groups: set<string>, token: string) {
    ManagedGroupName(token).Some? ==> ManagedGroupName(token).value in groups
  }

  /** Only existing groups have managers, and manager tokens name only existing groups. */
  ghost predicate Named(managers: map<string, seq<string>>, groups: set<string>) {
    forall g :: g in managers && managers[g] != [] ==>
      g in groups && forall token :: token in managers[g] ==> NamesExisting(groups, token)
  }

  ghost predicate ManagersNamed(st: State) {
    Named(st.managers, st.groups.Keys)
  }

  /** No group owned by anyone but a source has an id matched by one of the source's reserved names. */
  ghost predicate ReservedKept(st: State) {
    forall s, glob, id ::
      s in st.sources && glob in st.sources[s].reserved && id in st.groups && st.groups[id].sourceId != Some(s)
      ==> !GlobMatches(glob, id)
  }

  ghost predicate HasLocal(cfg: Config, st: State) {
    cfg.localId in st.sources && st.sources[cfg.localId].typ == Local
  }

  /** Every group belongs to a source, and that source exists. */
  predicate GroupsOwned(st: State) {
    forall id :: id in st.groups ==> st.groups[id].sourceId.Some? && st.groups[id].sourceId.value in st.sources
  }

  /** What holds of a store whatever groups of no source it may still have. */
  ghost predicate Consistent(cfg: Config, st: State) {
    SingleWriter(st) && UniqueKeys(st.tuples) && ValidIds(cfg, st) && ManagersNamed(st)
    && ReservedKept(st) && HasLocal(cfg, st)
  }

  /** What every run keeps. */
  ghost predicate Inv(cfg: Config, st: State) {
    Consistent(cfg, st) && GroupsOwned(st)
  }

  // ── Tuple lists ─────────────────────────────────────────────────────────────

  /** The tuples' share of the invariant. */
  ghost predicate TuplesOk(cfg: Config, groups: map<string, Group>, ts: seq<Tuple>) {
    UniqueKeys(ts)
    && forall t :: t in ts ==>
         t.objId in groups && groups[t.objId].sourceId == t.sourceId && ValidKey(cfg, KeyOf(t))
  }

  lemma FilteredOk(cfg: Config, groups: map<string, Group>, ts: seq<Tuple>, keep: Tuple -> bool)
    requires TuplesOk(cfg, groups, ts)
    ensures TuplesOk(cfg, groups, Filter(ts, keep))
  {
    FilterKeepsUniqueKeys(ts, keep);
    FilterElements(ts, keep);
  }

  lemma UpsertedOk(cfg: Config, groups: map<string, Group>, ts: seq<Tuple>, k: Key, sourceId: Option<SourceId>,
                   expires: Option<Instant>)
    requires TuplesOk(cfg, groups, ts) && ValidKey(cfg, k)
    requires k.objId in groups && groups[k.objId].sourceId == sourceId
    ensures TuplesOk(cfg, groups, Upsert(ts, k, sourceId, expires))
  {
    var i := IndexOf(ts, k);
    if i < |ts| {
      assert ts[i] in ts;
    } else {
      forall j | 0 <= j < |ts| ensures KeyOf(ts[j]) != k {
      }
    }
  }

  /** Each tuple left by a merge has the key and the source of one that was there, in the same order. */
  lemma MergedAt(ts: seq<Tuple>, target: nat, expires: Option<Instant>, i: nat, j: nat)
    requires target < |ts| && i < |ts| && j < |ts| - 1
    ensures var left := Without(ts[target := ts[target].(expires := expires)], i)[j];
            var was := ts[if j < i then j else j + 1];
            KeyOf(left) == KeyOf(was) && left.sourceId == was.sourceId && was in ts
  {
  }

  lemma MergedOk(cfg: Config, groups: map<string, Group>, ts: seq<Tuple>, target: nat, expires: Option<Instant>, i: nat)
    requires TuplesOk(cfg, groups, ts) && target < |ts| && i < |ts|
    ensures TuplesOk(cfg, groups, Without(ts[target := ts[target].(expires := expires)], i))
  {
    var out := Without(ts[target := ts[target].(expires := expires)], i);
    forall j | 0 <= j < |out|
      ensures var was := ts[if j < i then j else j + 1];
              KeyOf(out[j]) == KeyOf(was) && out[j].sourceId == was.sourceId && was in ts
    {
      MergedAt(ts, target, expires, i, j);
    }
  }

  lemma RenamedOk(cfg: Config, groups: map<string, Group>, ts: seq<Tuple>, i: nat, to: string)
    requires TuplesOk(cfg, groups, ts) && i < |ts| && to in cfg.relations
    requires IndexOf(ts, KeyOf(ts[i]).(relation := to)) == |ts|
    ensures TuplesOk(cfg, groups, ts[i := ts[i].(relation := to)])
  {
    assert ts[i] in ts;
    forall j | 0 <= j < |ts| ensures KeyOf(ts[j]) != KeyOf(ts[i]).(relation := to) && ts[j] in ts {
    }
  }

  lemma RerelatedOk(cfg: Config, groups: map<string, Group>, ts: seq<Tuple>, k: Key, to: string)
    requires TuplesOk(cfg, groups, ts) && to in cfg.relations && Rerelate(ts, k, to).Ok?
    ensures TuplesOk(cfg, groups, Rerelate(ts, k, to).value)
  {
    var from, target := IndexOf(ts, k), IndexOf(ts, k.(relation := to));
    if k.relation != to {
      if target == |ts| {
        RenamedOk(cfg, groups, ts, from, to);
      } else {
        MergedOk(cfg, groups, ts, target, LaterExpiry(ts[from].expires, ts[target].expires), from);
      }
    }
  }

  lemma MovedOk(cfg: Config, groups: map<string, Group>, ts: seq<Tuple>, from: Option<SourceId>, to: SourceId)
    requires TuplesOk(cfg, groups, ts)
    ensures TuplesOk(cfg, MovedGroups(groups, from, to), MovedTuples(ts, from, to))
  {
    var moved := MovedTuples(ts, from, to);
    forall i | 0 <= i < |moved| ensures KeyOf(moved[i]) == KeyOf(ts[i]) && ts[i] in ts {
    }
    forall t | t in moved
      ensures t.objId in groups && MovedGroups(groups, from, to)[t.objId].sourceId == t.sourceId
      ensures ValidKey(cfg, KeyOf(t))
    {
      var i :| 0 <= i < |moved| && moved[i] == t;
    }
  }

  // ── Ids ─────────────────────────────────────────────────────────────────────

  lemma ParsedMemberValid(token: string)
    ensures match ParseMemberToken(token)
            case Ok((kind, id)) => ValidMember(kind, id) && Canonical(kind, id) == id
            case Err(_) => true
  {
    match ParseToken(TrimSpace(token))
    case None =>
    case Some((kind, raw)) =>
      if ValidMember(kind, NormalizeId(raw)) {
        CanonicalValid(kind, NormalizeId(raw));
      }
  }

  /** The key an accepted member is stored under is valid, given its relations are configured. */
  lemma MadeKeyValid(cfg: Config, groupId: string, relation: string, kind: Kind, memberId: string)
    requires ValidConfig(cfg) && ValidGroupId(groupId) && relation in cfg.relations && ValidMember(kind, memberId)
    requires kind == Subgroup ==> MemberGroup(memberId).1 in cfg.relations
    ensures ValidKey(cfg, MakeKey(groupId, relation, kind, memberId))
  {
    assert relation != "";
  }

  lemma CheckedRelation(cfg: Config, relation: string)
    ensures CheckRelation(cfg, relation).Ok? ==> CheckRelation(cfg, relation).value in cfg.relations
  {
  }

  lemma ConfiguredRelation(cfg: Config, relation: string)
    requires ValidConfig(cfg) && relation in cfg.relations
    ensures CheckRelation(cfg, relation) == Ok(relation)
  {
    assert ValidRelationName(relation);
    assert relation[0] in relation && relation[|relation| - 1] in relation;
    TrimKeeps(relation);
  }

  // ── Steps on members ────────────────────────────────────────────────────────

  lemma LocalGroupOk(cfg: Config, st: State, caller: Caller, token: string)
    ensures match LocalGroup(cfg, st, caller, token)
            case Ok(id) => id in st.groups && st.groups[id].sourceId == Some(cfg.localId)
            case Err(_) => true
  {
  }

  /** What an accepted member is stored as: under a valid key, in a local group. */
  lemma AddedKey(cfg: Config, st: State, caller: Caller, groupToken: string, relation: string, memberToken: string,
                 expires: Option<Instant>, now: Instant) returns (k: Key)
    requires ValidConfig(cfg) && AddMember(cfg, st, caller, groupToken, relation, memberToken, expires, now).Ok?
    requires forall id :: id in st.groups ==> ValidGroupId(id)
    ensures AddMember(cfg, st, caller, groupToken, relation, memberToken, expires, now)
         == Ok(st.(tuples := Upsert(st.tuples, k, Some(cfg.localId), expires)))
    ensures ValidKey(cfg, k) && k.objId in st.groups && st.groups[k.objId].sourceId == Some(cfg.localId)
  {
    var m := CheckMember(cfg, relation, memberToken, expires, now).value;
    var id := LocalGroup(cfg, st, caller, groupToken).value;
    k := MakeKey(id, m.relation, m.kind, m.id);
    ParsedMemberValid(memberToken);
    CheckedRelation(cfg, relation);
    LocalGroupOk(cfg, st, caller, groupToken);
    if m.kind == Subgroup {
      MemberRelationChecked(cfg, m.id);
    }
    MadeKeyValid(cfg, id, m.relation, m.kind, m.id);
  }

  lemma AddMemberKeeps(cfg: Config, st: State, caller: Caller, groupToken: string, relation: string,
                       memberToken: string, expires: Option<Instant>, now: Instant)
    requires ValidConfig(cfg) && Consistent(cfg, st)
    ensures var after := AddMember(cfg, st, caller, groupToken, relation, memberToken, expires, now);
            after.Ok? ==> Consistent(cfg, after.value)
  {
    if AddMember(cfg, st, caller, groupToken, relation, memberToken, expires, now).Ok? {
      var k := AddedKey(cfg, st, caller, groupToken, relation, memberToken, expires, now);
      UpsertedOk(cfg, st.groups, st.tuples, k, Some(cfg.localId), expires);
    }
  }

  /** A member relation that passes the check is configured as it stands: valid names carry no blanks to trim. */
  lemma MemberRelationChecked(cfg: Config, memberId: string)
    requires ValidConfig(cfg) && ValidMember(Subgroup, memberId)
    ensures var memberRel := MemberGroup(memberId).1;
            memberRel == MEMBER || CheckRelation(cfg, memberRel).Ok? ==> memberRel in cfg.relations
  {
    var memberRel := MemberGroup(memberId).1;
    if memberRel != MEMBER {
      assert ValidRelationName(memberRel);
      assert memberRel[0] in memberRel && memberRel[|memberRel| - 1] in memberRel;
      TrimKeeps(memberRel);
    }
  }

  lemma RemoveMemberKeeps(cfg: Config, st: State, caller: Caller, groupToken: string, relation: string,
                          memberToken: string)
    requires Consistent(cfg, st)
    ensures var after := RemoveMember(cfg, st, caller, groupToken, relation, memberToken);
            after.Ok? ==> Consistent(cfg, after.value)
  {
    var after := RemoveMember(cfg, st, caller, groupToken, relation, memberToken);
    if after.Ok? {
      var rel := CheckRelation(cfg, relation).value;
      var (kind, memberId) := ParseMemberToken(memberToken).value;
      var id := LocalGroup(cfg, st, caller, groupToken).value;
      FilteredOk(cfg, st.groups, st.tuples, NotKey(MakeKey(id, rel, kind, memberId)));
    }
  }

  lemma ChangeRelationKeeps(cfg: Config, st: State, caller: Caller, groupToken: string, memberToken: string,
                            fromRelation: string, toRelation: string)
    requires Consistent(cfg, st)
    ensures var after := ChangeRelation(cfg, st, caller, groupToken, memberToken, fromRelation, toRelation);
            after.Ok? ==> Consistent(cfg, after.value)
  {
    var after := ChangeRelation(cfg, st, caller, groupToken, memberToken, fromRelation, toRelation);
    if after.Ok? && after.value != st {
      var from, to := CheckRelation(cfg, fromRelation).value, CheckRelation(cfg, toRelation).value;
      CheckedRelation(cfg, toRelation);
      var (kind, memberId) := ParseMemberToken(memberToken).value;
      var id := LocalGroup(cfg, st, caller, groupToken).value;
      RerelatedOk(cfg, st.groups, st.tuples, MakeKey(id, from, kind, memberId), to);
    }
  }

  // ── Steps on groups and managers ────────────────────────────────────────────

  lemma CheckedManagerToken(cfg: Config, st: State, token: string)
    ensures match CheckManagerToken(cfg, st, token)
            case Ok(t) => NamesExisting(st.groups.Keys, t)
            case Err(_) => true
  {
    match CheckManagerToken(cfg, st, token)
    case Err(_) =>
    case Ok(t) =>
      var (kind, id) := ParseMemberToken(token).value;
      if kind == User {
        KindOfToken(User, id, "");
        assert t[0] == 'u' && GROUP_PREFIX[0] == 'g';
      } else {
        var (group, relation) := SplitGroupRelation(id);
        GroupIdChars(group);
        GroupTokenNames(group, CheckRelation(cfg, relation).value);
      }
  }

  lemma {:induction false} CheckedManagerTokens(cfg: Config, st: State, tokens: seq<string>)
    ensures match CheckManagerTokens(cfg, st, tokens)
            case Ok(ts) => forall t :: t in ts ==> NamesExisting(st.groups.Keys, t)
            case Err(_) => true
  {
    if tokens != [] {
      CheckedManagerTokens(cfg, st, tokens[..|tokens| - 1]);
      CheckedManagerToken(cfg, st, tokens[|tokens| - 1]);
    }
  }

  lemma {:induction false} WithManagersNamed(managers: map<string, seq<string>>, groups: set<string>, id: string,
                                             tokens: seq<string>)
    requires Named(managers, groups) && id in groups
    requires forall t :: t in tokens ==> NamesExisting(groups, t)
    ensures Named(WithManagers(managers, id, tokens), groups)
  {
    if tokens != [] {
      WithManagersNamed(managers, groups, id, tokens[..|tokens| - 1]);
    }
  }

  lemma NewGroupKeeps(cfg: Config, st: State, id: string, group: Group, tokens: seq<string>)
    requires Consistent(cfg, st) && ValidGroupId(id) && id !in st.groups && group.sourceId == Some(cfg.localId)
    requires !ReservedByOther(st, cfg.localId, id)
    requires forall t :: t in tokens ==> NamesExisting(st.groups.Keys, t)
    ensures Consistent(cfg, st.(groups := st.groups[id := group], managers := WithManagers(st.managers, id, tokens)))
  {
    assert Named(st.managers, st.groups.Keys + {id});
    WithManagersNamed(st.managers, st.groups.Keys + {id}, id, tokens);
    assert st.groups[id := group].Keys == st.groups.Keys + {id};
  }

  lemma CreateGroupKeeps(cfg: Config, st: State, caller: Caller, rawId: string, displayName: string,
                         description: string, managers: seq<string>)
    requires Consistent(cfg, st)
    ensures var after := CreateGroup(cfg, st, caller, rawId, displayName, description, managers);
            after.Ok? ==> Consistent(cfg, after.value)
  {
    var after := CreateGroup(cfg, st, caller, rawId, displayName, description, managers);
    if after.Ok? {
      var id := NormalizeId(TrimPrefix(TrimSpace(rawId), GROUP_PREFIX));
      CheckedManagerTokens(cfg, st, managers);
      NewGroupKeeps(cfg, st, id, after.value.groups[id], CheckManagerTokens(cfg, st, managers).value);
    }
  }

  lemma WithoutGroupNamed(managers: map<string, seq<string>>, groups: set<string>, id: string)
    requires Named(managers, groups)
    ensures Named(ManagersWithout(managers, id), groups - {id})
  {
    forall g | g in managers && g != id && Filter(managers[g], NotNaming(id)) != []
      ensures g in groups - {id}
      ensures forall token :: token in Filter(managers[g], NotNaming(id)) ==> NamesExisting(groups - {id}, token)
    {
      FilterElements(managers[g], NotNaming(id));
      assert Filter(managers[g], NotNaming(id))[0] in managers[g];
    }
  }

  lemma WithoutGroupKeeps(cfg: Config, st: State, id: string)
    requires Consistent(cfg, st)
    ensures Consistent(cfg, WithoutGroup(st, id))
  {
    FilterKeepsUniqueKeys(st.tuples, NotMentioning(id));
    FilterElements(st.tuples, NotMentioning(id));
    WithoutGroupNamed(st.managers, st.groups.Keys, id);
    assert (st.groups - {id}).Keys == st.groups.Keys - {id};
  }

  lemma DeleteGroupKeeps(cfg: Config, st: State, caller: Caller, groupToken: string)
    requires Consistent(cfg, st)
    ensures var after := DeleteGroup(cfg, st, caller, groupToken);
            after.Ok? ==> Consistent(cfg, after.value)
  {
    if DeleteGroup(cfg, st, caller, groupToken).Ok? {
      WithoutGroupKeeps(cfg, st, LocalGroup(cfg, st, caller, groupToken).value);
    }
  }

  lemma NewManagerKeeps(cfg: Config, st: State, id: string, token: string)
    requires Consistent(cfg, st) && id in st.groups && NamesExisting(st.groups.Keys, token)
    ensures Consistent(cfg, st.(managers := WithManager(st.managers, id, token)))
  {
  }

  lemma AddManagerKeeps(cfg: Config, st: State, caller: Caller, groupToken: string, managerToken: string)
    requires Consistent(cfg, st)
    ensures var after := AddManager(cfg, st, caller, groupToken, managerToken);
            after.Ok? ==> Consistent(cfg, after.value)
  {
    var after := AddManager(cfg, st, caller, groupToken, managerToken);
    if after.Ok? {
      CheckedManagerToken(cfg, st, managerToken);
      LocalGroupOk(cfg, st, caller, groupToken);
      NewManagerKeeps(cfg, st, LocalGroup(cfg, st, caller, groupToken).value,
                      CheckManagerToken(cfg, st, managerToken).value);
    }
  }

  // ── Syncs ───────────────────────────────────────────────────────────────────

  /** What a sync stores of a row: its group, and a key with configured relations. */
  predicate StorablePair(cfg: Config, p: TuplePair) {
    ValidGroupId(p.groupId) && ValidKey(cfg, PairKey(p))
  }

  lemma PreparedPairValid(cfg: Config, p: TuplePair)
    requires ValidConfig(cfg) && ValidPair(p)
    ensures PreparedPair(cfg, p).Ok? ==> StorablePair(cfg, PreparedPair(cfg, p).value)
  {
    if PreparedPair(cfg, p).Ok? {
      GroupIdChars(p.groupId);
      NormalizeKeeps(p.groupId);
      MemberChars(p.kind, p.memberId);
      NormalizeKeeps(p.memberId);
      assert NormalizedPair(p) == p;
      var rel := CheckRelation(cfg, p.relation).value;
      CheckedRelation(cfg, p.relation);
      assert NormalizeRelation(rel) == rel;
      if p.kind == Subgroup {
        var (group, memberRel) := MemberGroup(p.memberId);
        CheckedRelation(cfg, memberRel);
        GroupIdChars(group);
        SplitJoin(group, CheckRelation(cfg, memberRel).value);
      }
    }
  }

  lemma {:induction false} PreparedPairsValid(cfg: Config, pairs: seq<TuplePair>)
    requires ValidConfig(cfg) && forall p :: p in pairs ==> ValidPair(p)
    ensures match PreparedPairs(cfg, pairs)
            case Ok(prepared) => forall p :: p in prepared ==> StorablePair(cfg, p)
            case Err(_) => true
  {
    if pairs != [] {
      PreparedPairsValid(cfg, pairs[..|pairs| - 1]);
      PreparedPairValid(cfg, pairs[|pairs| - 1]);
    }
  }

  /** The engine's guard: the source may write into every group of the import. */
  ghost predicate Guarded(cfg: Config, st: State, sourceId: SourceId, pairs: seq<TuplePair>) {
    (forall p :: p in pairs ==> StorablePair(cfg, p))
    && forall id :: id in ImportGroups(pairs) ==> MayWrite(st, sourceId, id)
  }

  /** Behind the guard no other source stores a key of the import. */
  lemma GuardedNotForeign(cfg: Config, st: State, sourceId: SourceId, pairs: seq<TuplePair>, t: Tuple)
    requires SingleWriter(st) && Guarded(cfg, st, sourceId, pairs) && t in st.tuples
    ensures KeyOf(t) in ImportKeys(pairs) ==> t.sourceId == Some(sourceId)
  {
    if KeyOf(t) in ImportKeys(pairs) {
      var p :| p in pairs && PairKey(p) == KeyOf(t);
      assert p.groupId in ImportGroups(pairs);
    }
  }

  lemma ReplacedTuplesOk(cfg: Config, st: State, sourceId: SourceId, pairs: seq<TuplePair>,
                         descriptions: map<string, string>)
    requires TuplesOk(cfg, st.groups, st.tuples) && Guarded(cfg, st, sourceId, pairs)
    ensures var after := Replaced(st, sourceId, pairs, descriptions);
            TuplesOk(cfg, after.groups, after.tuples)
  {
    var after := Replaced(st, sourceId, pairs, descriptions);
    var additions := Additions(pairs, SourceKeys(st.tuples, sourceId), sourceId);
    forall t | t in st.tuples && t.sourceId != Some(sourceId) ensures KeyOf(t) !in ImportKeys(pairs) {
      GuardedNotForeign(cfg, st, sourceId, pairs, t);
    }
    UniqueIffNotForeign(st.tuples, pairs, sourceId);
    FilterElements(st.tuples + additions, KeptByImport(sourceId, ImportKeys(pairs)));
    forall t | t in after.tuples
      ensures t.objId in after.groups && after.groups[t.objId].sourceId == t.sourceId && ValidKey(cfg, KeyOf(t))
    {
      OwnersKept(st, sourceId, pairs, descriptions, t.objId);
      assert Mentions(t, t.objId);
      if t in additions {
        AdditionStorable(cfg, pairs, SourceKeys(st.tuples, sourceId), sourceId, t);
      }
    }
  }

  lemma {:induction false} AdditionStorable(cfg: Config, pairs: seq<TuplePair>, existing: set<Key>, sourceId: SourceId,
                                            t: Tuple)
    requires forall p :: p in pairs ==> StorablePair(cfg, p)
    requires t in Additions(pairs, existing, sourceId)
    ensures t.sourceId == Some(sourceId) && t.objId in ImportGroups(pairs) && ValidKey(cfg, KeyOf(t))
  {
    AdditionsAreNewKeys(pairs, existing, sourceId);
    AdditionsOwned(pairs, existing, sourceId);
    assert KeyOf(t) in KeySet(Additions(pairs, existing, sourceId));
    var p :| p in pairs && PairKey(p) == KeyOf(t);
  }

  lemma ReplacedKeeps(cfg: Config, st: State, sourceId: SourceId, pairs: seq<TuplePair>,
                      descriptions: map<string, string>)
    requires Consistent(cfg, st) && Guarded(cfg, st, sourceId, pairs)
    ensures Consistent(cfg, Replaced(st, sourceId, pairs, descriptions))
  {
    ReplacedTuplesOk(cfg, st, sourceId, pairs, descriptions);
    ReplacedManagers(cfg, st, sourceId, pairs, descriptions);
    ReplacedGroupsOk(cfg, st, sourceId, pairs, descriptions);
  }

  lemma ReplacedGroupsOk(cfg: Config, st: State, sourceId: SourceId, pairs: seq<TuplePair>,
                         descriptions: map<string, string>)
    requires ReservedKept(st) && Guarded(cfg, st, sourceId, pairs)
    requires forall id :: id in st.groups ==> ValidGroupId(id)
    ensures var after := Replaced(st, sourceId, pairs, descriptions);
            ReservedKept(after) && forall id :: id in after.groups ==> ValidGroupId(id)
  {
    var after := Replaced(st, sourceId, pairs, descriptions);
    forall id | id in after.groups
      ensures ValidGroupId(id)
      ensures forall s, glob ::
                s in after.sources && glob in after.sources[s].reserved && after.groups[id].sourceId != Some(s)
                ==> !GlobMatches(glob, id)
    {
      OwnersKept(st, sourceId, pairs, descriptions, id);
      if id !in st.groups {
        assert MayWrite(st, sourceId, id);
      }
    }
  }

  lemma ReplacedManagers(cfg: Config, st: State, sourceId: SourceId, pairs: seq<TuplePair>,
                         descriptions: map<string, string>)
    requires ManagersNamed(st)
    ensures ManagersNamed(Replaced(st, sourceId, pairs, descriptions))
  {
    var after := Replaced(st, sourceId, pairs, descriptions);
    forall g | g in after.managers && after.managers[g] != []
      ensures g in after.groups
      ensures forall token :: token in after.managers[g] ==> NamesExisting(after.groups.Keys, token)
    {
      DeletedExactly(st, sourceId, pairs, descriptions, g);
      forall token | token in after.managers[g] && ManagedGroupName(token).Some?
        ensures ManagedGroupName(token).value in after.groups
      {
        DeletedExactly(st, sourceId, pairs, descriptions, ManagedGroupName(token).value);
      }
    }
  }

  lemma RunSyncKeeps(cfg: Config, st: State, sourceId: SourceId, pairs: seq<TuplePair>,
                     descriptions: map<string, string>)
    requires ValidConfig(cfg) && Consistent(cfg, st)
    ensures var after := RunSync(cfg, st, sourceId, pairs, descriptions);
            after.Ok? ==> Consistent(cfg, after.value)
  {
    var after := RunSync(cfg, st, sourceId, pairs, descriptions);
    if after.Ok? {
      PreparedPairsValid(cfg, pairs);
      ReplacedKeeps(cfg, st, sourceId, PreparedPairs(cfg, pairs).value, descriptions);
    }
  }

  // ── Steps on sources ────────────────────────────────────────────────────────

  lemma SourceChangeKeeps(cfg: Config, st: State, sourceId: SourceId, source: Source)
    requires Consistent(cfg, st) && sourceId != cfg.localId
    requires !ReservationTaken(st, Some(sourceId), source.reserved)
    ensures Consistent(cfg, st.(sources := st.sources[sourceId := source]))
  {
    assert TuplesOk(cfg, st.groups, st.tuples);
  }

  lemma DeleteSourceKeeps(cfg: Config, st: State, sourceId: SourceId)
    requires Consistent(cfg, st)
    ensures var after := DeleteSource(cfg, st, sourceId);
            after.Ok? ==> Consistent(cfg, after.value)
  {
    if DeleteSource(cfg, st, sourceId).Ok? {
      var orphaned := WithoutSource(st, sourceId);
      FilteredOk(cfg, st.groups, st.tuples, NotOwnedBy(sourceId));
      FilterElements(st.tuples, NotOwnedBy(sourceId));
      assert TuplesOk(cfg, orphaned.groups, orphaned.tuples);
      MovedOk(cfg, orphaned.groups, orphaned.tuples, None, cfg.localId);
      var after := DeleteSource(cfg, st, sourceId).value;
      assert after.groups.Keys == st.groups.Keys;
      assert ReservedKept(after);
    }
  }

  /** Moving a source's groups away and deleting it, in one step; in between its reserved names would not hold. */
  lemma AdoptedKeeps(cfg: Config, st: State, sourceId: SourceId)
    requires Consistent(cfg, st) && sourceId != cfg.localId
    ensures Consistent(cfg, WithoutSource(Moved(st, Some(sourceId), cfg.localId), sourceId))
  {
    var moved := Moved(st, Some(sourceId), cfg.localId);
    MovedOk(cfg, st.groups, st.tuples, Some(sourceId), cfg.localId);
    FilteredOk(cfg, moved.groups, moved.tuples, NotOwnedBy(sourceId));
    var after := WithoutSource(moved, sourceId);
    assert after.groups == moved.groups;
    assert after.groups.Keys == st.groups.Keys;
    assert ReservedKept(after);
  }

  lemma AdoptOrphansKeeps(cfg: Config, st: State)
    requires Consistent(cfg, st)
    ensures Consistent(cfg, Moved(st, None, cfg.localId))
  {
    MovedOk(cfg, st.groups, st.tuples, None, cfg.localId);
    assert Moved(st, None, cfg.localId).groups.Keys == st.groups.Keys;
  }

  // ── Runs ────────────────────────────────────────────────────────────────────

  /** The step may add, drop or change a tuple, and does nothing else. */
  predicate OnMembers(ev: Event) {
    ev.MemberAdded? || ev.MemberRemoved? || ev.RelationChanged?
  }

  predicate OnGroups(ev: Event) {
    ev.GroupCreated? || ev.GroupDeleted? || ev.ManagerAdded?
  }

  predicate OnSources(ev: Event) {
    ev.SourceCreated? || ev.SourceUpdated? || ev.SourceDeleted? || ev.SourceAdopted? || ev.OrphansAdopted?
  }

  lemma AddedOnly(cfg: Config, st: State, caller: Caller, group: string, relation: string, member: string,
                  expires: Option<Instant>, now: Instant)
    ensures var after := AddMember(cfg, st, caller, group, relation, member, expires, now);
            after.Ok? ==> after.value == st.(tuples := after.value.tuples)
  {
  }

  lemma ChangedOnly(cfg: Config, st: State, caller: Caller, group: string, member: string, from: string, to: string)
    ensures var after := ChangeRelation(cfg, st, caller, group, member, from, to);
            after.Ok? ==> after.value == st.(tuples := after.value.tuples)
  {
    var after := ChangeRelation(cfg, st, caller, group, member, from, to);
    if after.Ok? && after.value != st {
      var (kind, memberId) := ParseMemberToken(member).value;
      var k := MakeKey(LocalGroup(cfg, st, caller, group).value, CheckRelation(cfg, from).value, kind, memberId);
      assert after.value == st.(tuples := Rerelate(st.tuples, k, CheckRelation(cfg, to).value).value);
    }
  }

  lemma MembersOnly(cfg: Config, st: State, ev: Event, now: Instant)
    requires OnMembers(ev)
    ensures Next(cfg, st, ev, now) == st.(tuples := Next(cfg, st, ev, now).tuples)
  {
    match ev
    case MemberAdded(caller, group, relation, member, expires) =>
      AddedOnly(cfg, st, caller, group, relation, member, expires, now);
    case MemberRemoved(caller, group, relation, member) =>
    case RelationChanged(caller, group, member, from, to) => ChangedOnly(cfg, st, caller, group, member, from, to);
  }

  lemma MemberStepConsistent(cfg: Config, st: State, ev: Event, now: Instant)
    requires ValidConfig(cfg) && Consistent(cfg, st) && OnMembers(ev)
    ensures Consistent(cfg, Next(cfg, st, ev, now))
  {
    match ev
    case MemberAdded(caller, group, relation, member, expires) =>
      AddMemberKeeps(cfg, st, caller, group, relation, member, expires, now);
    case MemberRemoved(caller, group, relation, member) =>
      RemoveMemberKeeps(cfg, st, caller, group, relation, member);
    case RelationChanged(caller, group, member, from, to) =>
      ChangeRelationKeeps(cfg, st, caller, group, member, from, to);
  }

  lemma GroupStepConsistent(cfg: Config, st: State, ev: Event, now: Instant)
    requires Consistent(cfg, st) && OnGroups(ev)
    ensures Consistent(cfg, Next(cfg, st, ev, now))
  {
    match ev
    case GroupCreated(caller, id, name, description, managers) =>
      CreateGroupKeeps(cfg, st, caller, id, name, description, managers);
    case GroupDeleted(caller, group) => DeleteGroupKeeps(cfg, st, caller, group);
    case ManagerAdded(caller, group, manager) => AddManagerKeeps(cfg, st, caller, group, manager);
  }

  lemma SourceStepConsistent(cfg: Config, st: State, ev: Event, now: Instant)
    requires Consistent(cfg, st) && OnSources(ev)
    ensures Consistent(cfg, Next(cfg, st, ev, now))
  {
    match ev
    case SourceCreated(sourceId, source) =>
      if CreateSource(st, sourceId, source).Ok? {
        SourceChangeKeeps(cfg, st, sourceId, source);
      }
    case SourceUpdated(sourceId, name, reserved) =>
      if UpdateSource(st, sourceId, name, reserved).Ok? {
        SourceChangeKeeps(cfg, st, sourceId, st.sources[sourceId].(name := name, reserved := reserved));
      }
    case SourceDeleted(sourceId) => DeleteSourceKeeps(cfg, st, sourceId);
    case SourceAdopted(sourceId) =>
      if AdoptSource(cfg, st, sourceId).Ok? {
        AdoptedKeeps(cfg, st, sourceId);
      }
    case OrphansAdopted => AdoptOrphansKeeps(cfg, st);
  }

  /** Every step, accepted or refused, keeps a store consistent. */
  lemma NextConsistent(cfg: Config, st: State, ev: Event, now: Instant)
    requires ValidConfig(cfg) && Consistent(cfg, st)
    ensures Consistent(cfg, Next(cfg, st, ev, now))
  {
    if ev.Synced? {
      RunSyncKeeps(cfg, st, ev.sourceId, ev.pairs, ev.descriptions);
    } else if OnMembers(ev) {
      MemberStepConsistent(cfg, st, ev, now);
    } else if OnGroups(ev) {
      GroupStepConsistent(cfg, st, ev, now);
    } else {
      SourceStepConsistent(cfg, st, ev, now);
    }
  }

  lemma SyncOwns(cfg: Config, st: State, sourceId: SourceId, pairs: seq<TuplePair>, descriptions: map<string, string>)
    requires GroupsOwned(st)
    ensures var after := RunSync(cfg, st, sourceId, pairs, descriptions);
            after.Ok? ==> GroupsOwned(after.value)
  {
    if RunSync(cfg, st, sourceId, pairs, descriptions).Ok? {
      var prepared := PreparedPairs(cfg, pairs).value;
      var after := Replaced(st, sourceId, prepared, descriptions);
      forall id | id in after.groups
        ensures after.groups[id].sourceId == if id in st.groups then st.groups[id].sourceId else Some(sourceId)
      {
        OwnersKept(st, sourceId, prepared, descriptions, id);
      }
    }
  }

  /** Deleting a source orphans its groups, and the same step gives them to the local source. */
  lemma DeletedSourceOwns(cfg: Config, st: State, sourceId: SourceId)
    requires GroupsOwned(st) && HasLocal(cfg, st)
    ensures var after := DeleteSource(cfg, st, sourceId);
            after.Ok? ==> GroupsOwned(after.value)
  {
  }

  lemma AdoptedOwns(cfg: Config, st: State, sourceId: SourceId)
    requires GroupsOwned(st) && HasLocal(cfg, st) && sourceId != cfg.localId
    ensures GroupsOwned(WithoutSource(Moved(st, Some(sourceId), cfg.localId), sourceId))
  {
  }

  lemma GroupStepOwns(cfg: Config, st: State, ev: Event, now: Instant)
    requires HasLocal(cfg, st) && GroupsOwned(st) && OnGroups(ev)
    ensures GroupsOwned(Next(cfg, st, ev, now))
  {
    match ev
    case GroupCreated(caller, id, name, description, managers) =>
    case GroupDeleted(caller, group) =>
    case ManagerAdded(caller, group, manager) =>
  }

  lemma SourceStepOwns(cfg: Config, st: State, ev: Event, now: Instant)
    requires HasLocal(cfg, st) && GroupsOwned(st) && OnSources(ev)
    ensures GroupsOwned(Next(cfg, st, ev, now))
  {
    match ev
    case SourceCreated(sourceId, source) =>
    case SourceUpdated(sourceId, name, reserved) =>
    case SourceDeleted(sourceId) => DeletedSourceOwns(cfg, st, sourceId);
    case SourceAdopted(sourceId) =>
      if AdoptSource(cfg, st, sourceId).Ok? {
        AdoptedOwns(cfg, st, sourceId);
      }
    case OrphansAdopted =>
  }

  /** Every step, accepted or refused, leaves every group with a source that exists. */
  lemma NextOwns(cfg: Config, st: State, ev: Event, now: Instant)
    requires HasLocal(cfg, st) && GroupsOwned(st)
    ensures GroupsOwned(Next(cfg, st, ev, now))
  {
    if ev.Synced? {
      SyncOwns(cfg, st, ev.sourceId, ev.pairs, ev.descriptions);
    } else if OnMembers(ev) {
      MembersOnly(cfg, st, ev, now);
    } else if OnGroups(ev) {
      GroupStepOwns(cfg, st, ev, now);
    } else {
      SourceStepOwns(cfg, st, ev, now);
    }
  }

  /** Every step, accepted or refused, keeps the invariant. */
  lemma NextKeeps(cfg: Config, st: State, ev: Event, now: Instant)
    requires ValidConfig(cfg) && Inv(cfg, st)
    ensures Inv(cfg, Next(cfg, st, ev, now))
  {
    NextConsistent(cfg, st, ev, now);
    NextOwns(cfg, st, ev, now);
  }

  /**
   * Over every serial run, however many steps, whoever takes them and wherever it starts, the invariant holds if it
   * did.
   */
  lemma {:induction false} RunKeeps(cfg: Config, st: State, run: seq<Moment>)
    requires ValidConfig(cfg) && Inv(cfg, st)
    ensures Inv(cfg, Run(cfg, st, run))
  {
    if run == [] {
    } else {
      RunKeeps(cfg, st, run[..|run| - 1]);
      NextKeeps(cfg, Run(cfg, st, run[..|run| - 1]), run[|run| - 1].ev, run[|run| - 1].now);
    }
  }

  /** So it holds of every run of a new service. */
  lemma NewServiceKeeps(cfg: Config, name: string, run: seq<Moment>)
    requires ValidConfig(cfg)
    ensures Inv(cfg, Run(cfg, Initial(cfg, name), run))
  {
    RunKeeps(cfg, Initial(cfg, name), run);
  }

  /** And of one that has set up its Keycloak source, reserving what its mapping names, before anything else. */
  lemma KeycloakServiceKeeps(cfg: Config, name: string, sourceId: SourceId, reserved: seq<string>, run: seq<Moment>)
    requires ValidConfig(cfg) && sourceId != cfg.localId
    ensures Inv(cfg, Run(cfg, WithKeycloak(cfg, name, sourceId, reserved), run))
  {
    RunKeeps(cfg, WithKeycloak(cfg, name, sourceId, reserved), run);
  }

  // ── What follows for every reachable state ──────────────────────────────────

  /**
   * No source stores a key of another source's import that passed the guard: what the unique index of the database
   * demands.
   */
  lemma GuardedImportUnique(cfg: Config, st: State, sourceId: SourceId, pairs: seq<TuplePair>)
    requires Inv(cfg, st) && Guarded(cfg, st, sourceId, pairs)
    ensures forall t :: t in st.tuples && t.sourceId != Some(sourceId) ==> KeyOf(t) !in ImportKeys(pairs)
    ensures UniqueKeys(ImportedTuples(st.tuples, pairs, sourceId))
  {
    forall t | t in st.tuples && t.sourceId != Some(sourceId) ensures KeyOf(t) !in ImportKeys(pairs) {
      GuardedNotForeign(cfg, st, sourceId, pairs, t);
    }
    UniqueIffNotForeign(st.tuples, pairs, sourceId);
  }

  /** Stored tuples have the form resolution relies on. */
  lemma InvWellFormed(cfg: Config, st: State)
    requires ValidConfig(cfg) && Inv(cfg, st)
    ensures WellFormed(st.tuples)
  {
    forall t | t in st.tuples ensures WellFormedKey(KeyOf(t)) {
      if t.kind == Subgroup {
        GroupIdChars(t.subjId);
      }
    }
  }

  /** In no reachable state does anyone's token list name a token twice. */
  lemma TokensDistinct(cfg: Config, st: State, run: seq<Moment>, now: Instant, email: string, order: seq<Pair>)
    requires ValidConfig(cfg) && Inv(cfg, st)
    requires Lists(order, Held(LiveTuples(Run(cfg, st, run).tuples, now), email))
    ensures NoDuplicates(Rendered(email, order))
  {
    RunKeeps(cfg, st, run);
    var ts := Run(cfg, st, run).tuples;
    forall p | p in order ensures '#' !in p.group && p.relation != "" {
      assert p in Elements(order);
      var t :| t in LiveTuples(ts, now) && PairOf(t) == p;
      assert ValidKey(cfg, KeyOf(t));
      GroupIdChars(t.objId);
    }
    RenderedNoDuplicates(email, order);
  }

  /** In every reachable state a sync reports exactly how many keys it added and how many it removed. */
  lemma CountsInRuns(cfg: Config, st: State, run: seq<Moment>, sourceId: SourceId, pairs: seq<TuplePair>)
    requires ValidConfig(cfg) && Inv(cfg, st)
    ensures var ts := Run(cfg, st, run).tuples;
            var existing := SourceKeys(ts, sourceId);
            var added := |Additions(pairs, existing, sourceId)|;
            added == |ImportKeys(pairs) - existing|
            && |ts| + added - |ImportedTuples(ts, pairs, sourceId)| == |existing - ImportKeys(pairs)|
  {
    RunKeeps(cfg, st, run);
    var ts := Run(cfg, st, run).tuples;
    FilterKeepsUniqueKeys(ts, Dropped(sourceId, ImportKeys(pairs)));
    CountsAreDifferences(ts, pairs, sourceId);
  }
}
