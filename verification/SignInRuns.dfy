// Sign-ins among the other steps: what is kept whatever comes in between, and
// what the source's next accepted run makes of it (internal/keycloak/source.go:116-153,
// internal/sync/engine.go:58-131).
module SignInRuns {
  import opened Wrappers
  import opened Sequences
  import opened Validate
  import opened Tuples
  import opened Transitions
  import opened ReplaceLaws
  import opened Steps
  import opened Invariants
  import opened Keycloak
  import opened SignIn

  // ── What holds between two runs of the source ───────────────────────────────

  /** The tuple's group exists and has the tuple's source, or the source that signs people in wrote the tuple. */
  predicate WriterOrSource(groups: map<string, Group>, source: SourceId, t: Tuple) {
    t.sourceId == Some(source) || (t.objId in groups && groups[t.objId].sourceId == t.sourceId)
  }

  /** No source stores a key twice. */
  predicate UniquePerSource(ts: seq<Tuple>) {
    forall i, j :: 0 <= i < j < |ts| && KeyOf(ts[i]) == KeyOf(ts[j]) ==> ts[i].sourceId != ts[j].sourceId
  }

  ghost predicate TuplesBut(cfg: Config, source: SourceId, groups: map<string, Group>, ts: seq<Tuple>) {
    UniquePerSource(ts) && forall t :: t in ts ==> WriterOrSource(groups, source, t) && ValidKey(cfg, KeyOf(t))
  }

  /** The invariant, but for what the source that signs people in has written past the service. */
  ghost predicate InvBut(cfg: Config, source: SourceId, st: State) {
    Inv(cfg, st.(tuples := [])) && TuplesBut(cfg, source, st.groups, st.tuples)
  }

  /** The invariant is this and one writer per group. */
  lemma InvIff(cfg: Config, source: SourceId, st: State)
    ensures Inv(cfg, st) <==> InvBut(cfg, source, st) && SingleWriter(st)
  {
    if InvBut(cfg, source, st) && SingleWriter(st) {
      forall i, j | 0 <= i < j < |st.tuples| ensures KeyOf(st.tuples[i]) != KeyOf(st.tuples[j]) {
        assert st.tuples[i] in st.tuples && st.tuples[j] in st.tuples;
      }
    }
  }

  // ── Tuple lists ─────────────────────────────────────────────────────────────

  lemma {:induction false} FilterUnique(ts: seq<Tuple>, keep: Tuple -> bool)
    requires UniquePerSource(ts)
    ensures UniquePerSource(Filter(ts, keep))
  {
    if ts != [] {
      var init, last := ts[..|ts| - 1], ts[|ts| - 1];
      var kept := Filter(init, keep);
      FilterUnique(init, keep);
      FilterElements(init, keep);
      forall i | 0 <= i < |kept| && KeyOf(kept[i]) == KeyOf(last) ensures kept[i].sourceId != last.sourceId {
        assert kept[i] in init;
      }
    }
  }

  lemma FilteredBut(cfg: Config, source: SourceId, groups: map<string, Group>, ts: seq<Tuple>, keep: Tuple -> bool)
    requires TuplesBut(cfg, source, groups, ts)
    ensures TuplesBut(cfg, source, groups, Filter(ts, keep))
  {
    FilterUnique(ts, keep);
    FilterElements(ts, keep);
  }

  lemma UpsertedBut(cfg: Config, source: SourceId, groups: map<string, Group>, ts: seq<Tuple>, k: Key,
                    sourceId: Option<SourceId>, expires: Option<Instant>)
    requires TuplesBut(cfg, source, groups, ts) && ValidKey(cfg, k)
    requires sourceId == Some(source) || (k.objId in groups && groups[k.objId].sourceId == sourceId)
    ensures TuplesBut(cfg, source, groups, Upsert(ts, k, sourceId, expires))
  {
    var i := IndexOf(ts, k);
    if i < |ts| {
      assert ts[i] in ts;
    } else {
      NewTupleKey(k, sourceId, expires);
    }
  }

  lemma MergedBut(cfg: Config, source: SourceId, groups: map<string, Group>, ts: seq<Tuple>, target: nat,
                  expires: Option<Instant>, i: nat)
    requires TuplesBut(cfg, source, groups, ts) && target < |ts| && i < |ts|
    ensures TuplesBut(cfg, source, groups, Without(ts[target := ts[target].(expires := expires)], i))
  {
    var out := Without(ts[target := ts[target].(expires := expires)], i);
    forall j | 0 <= j < |out|
      ensures var was := ts[if j < i then j else j + 1];
              KeyOf(out[j]) == KeyOf(was) && out[j].sourceId == was.sourceId && was in ts
    {
      MergedAt(ts, target, expires, i, j);
    }
  }

  lemma RerelatedBut(cfg: Config, source: SourceId, groups: map<string, Group>, ts: seq<Tuple>, k: Key, to: string)
    requires TuplesBut(cfg, source, groups, ts) && to in cfg.relations && Rerelate(ts, k, to).Ok?
    ensures TuplesBut(cfg, source, groups, Rerelate(ts, k, to).value)
  {
    var from, target := IndexOf(ts, k), IndexOf(ts, k.(relation := to));
    assert ts[from] in ts;
    if k.relation != to {
      if target == |ts| {
        forall j | 0 <= j < |ts| ensures KeyOf(ts[j]) != KeyOf(ts[from]).(relation := to) && ts[j] in ts {
        }
      } else {
        MergedBut(cfg, source, groups, ts, target, LaterExpiry(ts[from].expires, ts[target].expires), from);
      }
    }
  }

  /** Another source's tuples and groups pass on together, and meet no tuple of their new owner under the same key. */
  lemma MovedBut(cfg: Config, source: SourceId, groups: map<string, Group>, ts: seq<Tuple>, from: Option<SourceId>,
                 to: SourceId)
    requires TuplesBut(cfg, source, groups, ts) && from != Some(source) && to != source
    ensures TuplesBut(cfg, source, MovedGroups(groups, from, to), MovedTuples(ts, from, to))
  {
    var moved := MovedTuples(ts, from, to);
    forall i | 0 <= i < |moved| ensures KeyOf(moved[i]) == KeyOf(ts[i]) && ts[i] in ts {
    }
    forall t | t in moved ensures WriterOrSource(MovedGroups(groups, from, to), source, t) && ValidKey(cfg, KeyOf(t)) {
      var i :| 0 <= i < |moved| && moved[i] == t;
    }
  }

  // ── Steps ───────────────────────────────────────────────────────────────────

  /** Both are refused, or end alike but for the tuples. */
  predicate SameBare(a: Result<State>, b: Result<State>) {
    match (a, b)
    case (Ok(x), Ok(y)) => x.(tuples := []) == y.(tuples := [])
    case (Err(_), Err(_)) => true
    case _ => false
  }

  lemma ManagerBare(cfg: Config, st: State, token: string)
    ensures CheckManagerToken(cfg, st, token) == CheckManagerToken(cfg, st.(tuples := []), token)
  {
  }

  lemma {:induction false} ManagersBare(cfg: Config, st: State, tokens: seq<string>)
    ensures CheckManagerTokens(cfg, st, tokens) == CheckManagerTokens(cfg, st.(tuples := []), tokens)
  {
    if tokens != [] {
      ManagersBare(cfg, st, tokens[..|tokens| - 1]);
      ManagerBare(cfg, st, tokens[|tokens| - 1]);
    }
  }

  lemma LocalGroupBare(cfg: Config, st: State, caller: Caller, token: string)
    ensures LocalGroup(cfg, st, caller, token) == LocalGroup(cfg, st.(tuples := []), caller, token)
  {
  }

  lemma CreatedBare(cfg: Config, st: State, caller: Caller, id: string, name: string, description: string,
                    managers: seq<string>)
    ensures SameBare(CreateGroup(cfg, st, caller, id, name, description, managers),
                     CreateGroup(cfg, st.(tuples := []), caller, id, name, description, managers))
  {
    ManagersBare(cfg, st, managers);
  }

  lemma DeletedBare(cfg: Config, st: State, caller: Caller, group: string)
    ensures SameBare(DeleteGroup(cfg, st, caller, group), DeleteGroup(cfg, st.(tuples := []), caller, group))
  {
    LocalGroupBare(cfg, st, caller, group);
  }

  lemma ManagedBare(cfg: Config, st: State, caller: Caller, group: string, manager: string)
    ensures SameBare(AddManager(cfg, st, caller, group, manager),
                     AddManager(cfg, st.(tuples := []), caller, group, manager))
  {
    LocalGroupBare(cfg, st, caller, group);
    ManagerBare(cfg, st, manager);
  }

  lemma GroupsBare(cfg: Config, st: State, ev: Event, now: Instant)
    requires OnGroups(ev)
    ensures SameBare(Outcome(cfg, st, ev, now), Outcome(cfg, st.(tuples := []), ev, now))
  {
    match ev
    case GroupCreated(caller, id, name, description, managers) =>
      CreatedBare(cfg, st, caller, id, name, description, managers);
    case GroupDeleted(caller, group) => DeletedBare(cfg, st, caller, group);
    case ManagerAdded(caller, group, manager) => ManagedBare(cfg, st, caller, group, manager);
  }

  lemma SourcesBare(cfg: Config, st: State, ev: Event, now: Instant)
    requires OnSources(ev)
    ensures SameBare(Outcome(cfg, st, ev, now), Outcome(cfg, st.(tuples := []), ev, now))
  {
    match ev
    case SourceCreated(sourceId, s) =>
    case SourceUpdated(sourceId, name, reserved) =>
    case SourceDeleted(sourceId) =>
    case SourceAdopted(sourceId) =>
    case OrphansAdopted =>
  }

  /** What a step other than a run does to groups, managers and sources does not depend on the tuples. */
  lemma NextBare(cfg: Config, st: State, ev: Event, now: Instant)
    requires ValidConfig(cfg) && Inv(cfg, st.(tuples := [])) && !ev.Synced?
    ensures Inv(cfg, Next(cfg, st, ev, now).(tuples := []))
  {
    if OnMembers(ev) {
      MembersOnly(cfg, st, ev, now);
    } else {
      NextKeeps(cfg, st.(tuples := []), ev, now);
      if OnGroups(ev) {
        GroupsBare(cfg, st, ev, now);
      } else {
        SourcesBare(cfg, st, ev, now);
      }
    }
  }

  lemma MembersBut(cfg: Config, source: SourceId, st: State, ev: Event, now: Instant)
    requires ValidConfig(cfg) && InvBut(cfg, source, st) && OnMembers(ev)
    ensures TuplesBut(cfg, source, st.groups, Next(cfg, st, ev, now).tuples)
  {
    match ev
    case MemberAdded(caller, group, relation, member, expires) =>
      AddedBut(cfg, source, st, caller, group, relation, member, expires, now);
    case MemberRemoved(caller, group, relation, member) => RemovedBut(cfg, source, st, caller, group, relation, member);
    case RelationChanged(caller, group, member, from, to) =>
      ChangedBut(cfg, source, st, caller, group, member, from, to);
  }

  lemma RemovedBut(cfg: Config, source: SourceId, st: State, caller: Caller, groupToken: string, relation: string,
                   memberToken: string)
    requires InvBut(cfg, source, st)
    ensures var after := RemoveMember(cfg, st, caller, groupToken, relation, memberToken);
            after.Ok? ==> TuplesBut(cfg, source, st.groups, after.value.tuples)
  {
    if RemoveMember(cfg, st, caller, groupToken, relation, memberToken).Ok? {
      var rel := CheckRelation(cfg, relation).value;
      var (kind, memberId) := ParseMemberToken(memberToken).value;
      var id := LocalGroup(cfg, st, caller, groupToken).value;
      FilteredBut(cfg, source, st.groups, st.tuples, NotKey(MakeKey(id, rel, kind, memberId)));
    }
  }

  lemma ChangedBut(cfg: Config, source: SourceId, st: State, caller: Caller, groupToken: string, memberToken: string,
                   fromRelation: string, toRelation: string)
    requires InvBut(cfg, source, st)
    ensures var after := ChangeRelation(cfg, st, caller, groupToken, memberToken, fromRelation, toRelation);
            after.Ok? ==> TuplesBut(cfg, source, st.groups, after.value.tuples)
  {
    var after := ChangeRelation(cfg, st, caller, groupToken, memberToken, fromRelation, toRelation);
    if after.Ok? && after.value != st {
      var from, to := CheckRelation(cfg, fromRelation).value, CheckRelation(cfg, toRelation).value;
      CheckedRelation(cfg, toRelation);
      var (kind, memberId) := ParseMemberToken(memberToken).value;
      var id := LocalGroup(cfg, st, caller, groupToken).value;
      RerelatedBut(cfg, source, st.groups, st.tuples, MakeKey(id, from, kind, memberId), to);
    }
  }

  lemma AddedBut(cfg: Config, source: SourceId, st: State, caller: Caller, groupToken: string, relation: string,
                 memberToken: string, expires: Option<Instant>, now: Instant)
    requires ValidConfig(cfg) && InvBut(cfg, source, st)
    ensures var after := AddMember(cfg, st, caller, groupToken, relation, memberToken, expires, now);
            after.Ok? ==> TuplesBut(cfg, source, st.groups, after.value.tuples)
  {
    if AddMember(cfg, st, caller, groupToken, relation, memberToken, expires, now).Ok? {
      var k := AddedKey(cfg, st, caller, groupToken, relation, memberToken, expires, now);
      UpsertedBut(cfg, source, st.groups, st.tuples, k, Some(cfg.localId), expires);
    }
  }

  /** The source is the Keycloak source, or is gone; the local source it is not. */
  predicate KeycloakOrGone(cfg: Config, source: SourceId, st: State) {
    source != cfg.localId && (source in st.sources ==> st.sources[source].typ == Keycloak)
  }

  lemma DeletedSourceBut(cfg: Config, source: SourceId, st: State, sourceId: SourceId)
    requires TuplesBut(cfg, source, st.groups, st.tuples) && source != cfg.localId
    ensures var after := DeleteSource(cfg, st, sourceId);
            after.Ok? ==> TuplesBut(cfg, source, after.value.groups, after.value.tuples)
  {
    var orphaned := WithoutSource(st, sourceId);
    FilteredBut(cfg, source, st.groups, st.tuples, NotOwnedBy(sourceId));
    FilterElements(st.tuples, NotOwnedBy(sourceId));
    assert TuplesBut(cfg, source, orphaned.groups, orphaned.tuples);
    MovedBut(cfg, source, orphaned.groups, orphaned.tuples, None, cfg.localId);
  }

  lemma AdoptedSourceBut(cfg: Config, source: SourceId, st: State, sourceId: SourceId)
    requires TuplesBut(cfg, source, st.groups, st.tuples) && KeycloakOrGone(cfg, source, st)
    ensures var after := AdoptSource(cfg, st, sourceId);
            after.Ok? ==> TuplesBut(cfg, source, after.value.groups, after.value.tuples)
  {
    if AdoptSource(cfg, st, sourceId).Ok? {
      AdoptedBut(cfg, source, st, sourceId);
    }
  }

  lemma AdoptedBut(cfg: Config, source: SourceId, st: State, sourceId: SourceId)
    requires TuplesBut(cfg, source, st.groups, st.tuples) && source != cfg.localId && sourceId != source
    ensures var after := WithoutSource(Moved(st, Some(sourceId), cfg.localId), sourceId);
            TuplesBut(cfg, source, after.groups, after.tuples)
  {
    var moved := Moved(st, Some(sourceId), cfg.localId);
    MovedBut(cfg, source, st.groups, st.tuples, Some(sourceId), cfg.localId);
    FilteredBut(cfg, source, moved.groups, moved.tuples, NotOwnedBy(sourceId));
    FilterElements(moved.tuples, NotOwnedBy(sourceId));
    assert WithoutSource(moved, sourceId).groups == OrphanedGroups(moved.groups, sourceId);
  }

  lemma CreatedBut(cfg: Config, source: SourceId, st: State, caller: Caller, id: string, name: string,
                   description: string, managers: seq<string>)
    requires InvBut(cfg, source, st)
    ensures var after := CreateGroup(cfg, st, caller, id, name, description, managers);
            after.Ok? ==>
              TuplesBut(cfg, source, after.value.groups, after.value.tuples) && after.value.sources == st.sources
  {
  }

  lemma DeletedBut(cfg: Config, source: SourceId, st: State, caller: Caller, group: string)
    requires InvBut(cfg, source, st)
    ensures var after := DeleteGroup(cfg, st, caller, group);
            after.Ok? ==>
              TuplesBut(cfg, source, after.value.groups, after.value.tuples) && after.value.sources == st.sources
  {
    if DeleteGroup(cfg, st, caller, group).Ok? {
      var id := LocalGroup(cfg, st, caller, group).value;
      FilteredBut(cfg, source, st.groups, st.tuples, NotMentioning(id));
      FilterElements(st.tuples, NotMentioning(id));
    }
  }

  lemma GroupsBut(cfg: Config, source: SourceId, st: State, ev: Event, now: Instant)
    requires InvBut(cfg, source, st)
    requires OnGroups(ev)
    ensures var after := Next(cfg, st, ev, now);
            TuplesBut(cfg, source, after.groups, after.tuples) && after.sources == st.sources
  {
    match ev
    case GroupCreated(caller, id, name, description, managers) =>
      CreatedBut(cfg, source, st, caller, id, name, description, managers);
    case GroupDeleted(caller, group) => DeletedBut(cfg, source, st, caller, group);
    case ManagerAdded(caller, group, manager) =>
  }

  lemma SourcesBut(cfg: Config, source: SourceId, st: State, ev: Event, now: Instant)
    requires InvBut(cfg, source, st) && KeycloakOrGone(cfg, source, st) && OnSources(ev)
    ensures var after := Next(cfg, st, ev, now);
            TuplesBut(cfg, source, after.groups, after.tuples)
  {
    match ev
    case SourceCreated(sourceId, s) =>
    case SourceUpdated(sourceId, name, reserved) =>
    case SourceDeleted(sourceId) => DeletedSourceBut(cfg, source, st, sourceId);
    case SourceAdopted(sourceId) => AdoptedSourceBut(cfg, source, st, sourceId);
    case OrphansAdopted => MovedBut(cfg, source, st.groups, st.tuples, None, cfg.localId);
  }

  lemma StaysKeycloak(cfg: Config, source: SourceId, st: State, ev: Event, now: Instant)
    requires KeycloakOrGone(cfg, source, st) && OnSources(ev)
    requires ev.SourceCreated? ==> ev.sourceId != source
    ensures KeycloakOrGone(cfg, source, Next(cfg, st, ev, now))
  {
  }

  // ── Runs of sources ─────────────────────────────────────────────────────────

  lemma AppendedUnique(ts: seq<Tuple>, pairs: seq<TuplePair>, sourceId: SourceId)
    requires UniquePerSource(ts)
    ensures UniquePerSource(ts + Additions(pairs, SourceKeys(ts, sourceId), sourceId))
  {
    var additions := Additions(pairs, SourceKeys(ts, sourceId), sourceId);
    AdditionsAreNewKeys(pairs, SourceKeys(ts, sourceId), sourceId);
    AdditionsOwned(pairs, SourceKeys(ts, sourceId), sourceId);
    forall i, j | 0 <= i < |ts| && 0 <= j < |additions| && KeyOf(ts[i]) == KeyOf(additions[j])
      ensures ts[i].sourceId != additions[j].sourceId
    {
      assert ts[i] in ts && additions[j] in additions;
      assert KeyOf(additions[j]) in KeySet(additions);
    }
  }

  /** After a run every tuple's group is kept, with the source it had or, if new, the one that ran. */
  lemma RunKeepsWriters(cfg: Config, source: SourceId, st: State, sourceId: SourceId, pairs: seq<TuplePair>,
                        descriptions: map<string, string>, t: Tuple)
    requires TuplesBut(cfg, source, st.groups, st.tuples) && Guarded(cfg, st, sourceId, pairs)
    requires t in ImportedTuples(st.tuples, pairs, sourceId)
    ensures var after := Replaced(st, sourceId, pairs, descriptions);
            ValidKey(cfg, KeyOf(t)) && WriterOrSource(after.groups, source, t)
            && (t.sourceId == Some(sourceId) ==>
                  t.objId in after.groups && after.groups[t.objId].sourceId == t.sourceId)
  {
    var additions := Additions(pairs, SourceKeys(st.tuples, sourceId), sourceId);
    OwnersKept(st, sourceId, pairs, descriptions, t.objId);
    FilterElements(st.tuples + additions, KeptByImport(sourceId, ImportKeys(pairs)));
    assert Mentions(t, t.objId);
    if t in additions {
      AdditionStorable(cfg, pairs, SourceKeys(st.tuples, sourceId), sourceId, t);
    } else if t.sourceId == Some(sourceId) {
      var p :| p in pairs && PairKey(p) == KeyOf(t);
      assert p.groupId in ImportGroups(pairs) && p.groupId == t.objId;
    }
  }

  lemma ReplacedBut(cfg: Config, source: SourceId, st: State, sourceId: SourceId, pairs: seq<TuplePair>,
                    descriptions: map<string, string>)
    requires TuplesBut(cfg, source, st.groups, st.tuples) && Guarded(cfg, st, sourceId, pairs)
    ensures var after := Replaced(st, sourceId, pairs, descriptions);
            TuplesBut(cfg, source, after.groups, after.tuples) && (sourceId == source ==> SingleWriter(after))
  {
    var after := Replaced(st, sourceId, pairs, descriptions);
    AppendedUnique(st.tuples, pairs, sourceId);
    FilterUnique(st.tuples + Additions(pairs, SourceKeys(st.tuples, sourceId), sourceId),
                 KeptByImport(sourceId, ImportKeys(pairs)));
    forall t | t in after.tuples
      ensures ValidKey(cfg, KeyOf(t)) && WriterOrSource(after.groups, source, t)
      ensures sourceId == source ==> t.objId in after.groups && after.groups[t.objId].sourceId == t.sourceId
    {
      RunKeepsWriters(cfg, source, st, sourceId, pairs, descriptions, t);
    }
  }

  lemma ReplacedBare(cfg: Config, st: State, sourceId: SourceId, pairs: seq<TuplePair>,
                     descriptions: map<string, string>)
    requires Inv(cfg, st.(tuples := [])) && Guarded(cfg, st, sourceId, pairs)
    requires GroupsOwned(Replaced(st, sourceId, pairs, descriptions))
    ensures Inv(cfg, Replaced(st, sourceId, pairs, descriptions).(tuples := []))
  {
    assert ManagersNamed(st) && ReservedKept(st);
    ReplacedManagers(cfg, st, sourceId, pairs, descriptions);
    ReplacedGroupsOk(cfg, st, sourceId, pairs, descriptions);
    var after := Replaced(st, sourceId, pairs, descriptions);
    assert ManagersNamed(after.(tuples := [])) && ReservedKept(after.(tuples := []));
  }

  /** A source's run keeps what holds, and the run of the source that signs people in brings back the invariant. */
  lemma RunBut(cfg: Config, source: SourceId, st: State, sourceId: SourceId, rows: seq<TuplePair>,
               descriptions: map<string, string>)
    requires ValidConfig(cfg) && InvBut(cfg, source, st)
    ensures var after := RunSync(cfg, st, sourceId, rows, descriptions);
            after.Ok? ==>
              InvBut(cfg, source, after.value) && after.value.sources == st.sources
              && (sourceId == source ==> Inv(cfg, after.value))
  {
    if RunSync(cfg, st, sourceId, rows, descriptions).Ok? {
      var prepared := PreparedPairs(cfg, rows).value;
      PreparedPairsValid(cfg, rows);
      SyncOwns(cfg, st, sourceId, rows, descriptions);
      GuardedRunBut(cfg, source, st, sourceId, prepared, descriptions);
    }
  }

  lemma GuardedRunBut(cfg: Config, source: SourceId, st: State, sourceId: SourceId, pairs: seq<TuplePair>,
                      descriptions: map<string, string>)
    requires InvBut(cfg, source, st) && Guarded(cfg, st, sourceId, pairs)
    requires GroupsOwned(Replaced(st, sourceId, pairs, descriptions))
    ensures var after := Replaced(st, sourceId, pairs, descriptions);
            InvBut(cfg, source, after) && (sourceId == source ==> Inv(cfg, after))
  {
    ReplacedBut(cfg, source, st, sourceId, pairs, descriptions);
    ReplacedBare(cfg, st, sourceId, pairs, descriptions);
    InvIff(cfg, source, Replaced(st, sourceId, pairs, descriptions));
  }

  // ── Any steps in between ────────────────────────────────────────────────────

  /** A step of the service, or what a sign-in writes. */
  datatype Turn = Served(moment: Moment) | PersonSeen(pairs: seq<TuplePair>)

  /** Sign-ins write rows about people; the id of a new source is one no source has had. */
  predicate PossibleTurn(cfg: Config, source: SourceId, turn: Turn) {
    match turn
    case Served(m) => m.ev.SourceCreated? ==> m.ev.sourceId != source
    case PersonSeen(pairs) => forall p :: p in pairs ==> PersonRow(cfg, p)
  }

  ghost function AfterTurns(cfg: Config, source: SourceId, st: State, turns: seq<Turn>): State {
    if turns == [] then st
    else
      var before := AfterTurns(cfg, source, st, turns[..|turns| - 1]);
      match turns[|turns| - 1]
      case Served(m) => Next(cfg, before, m.ev, m.now)
      case PersonSeen(pairs) => SignedIn(before, pairs, source)
  }

  lemma {:induction false} SignInBut(cfg: Config, source: SourceId, st: State, pairs: seq<TuplePair>)
    requires ValidConfig(cfg) && InvBut(cfg, source, st)
    requires forall p :: p in pairs ==> PersonRow(cfg, p)
    ensures InvBut(cfg, source, SignedIn(st, pairs, source))
  {
    if pairs != [] {
      var init, p := pairs[..|pairs| - 1], pairs[|pairs| - 1];
      SignInBut(cfg, source, st, init);
      PersonRowPrepared(cfg, p);
      PreparedPairValid(cfg, p);
      UpsertedBut(cfg, source, st.groups, UpsertAll(st.tuples, init, source), PairKey(p), Some(source), None);
    }
  }

  /** Every step, accepted or refused, keeps the invariant but for the source's own tuples. */
  lemma NextBut(cfg: Config, source: SourceId, st: State, ev: Event, now: Instant)
    requires ValidConfig(cfg) && InvBut(cfg, source, st) && KeycloakOrGone(cfg, source, st)
    requires ev.SourceCreated? ==> ev.sourceId != source
    ensures var after := Next(cfg, st, ev, now);
            InvBut(cfg, source, after) && KeycloakOrGone(cfg, source, after)
  {
    if ev.Synced? {
      RunBut(cfg, source, st, ev.sourceId, ev.pairs, ev.descriptions);
    } else {
      NextBare(cfg, st, ev, now);
      if OnMembers(ev) {
        MembersOnly(cfg, st, ev, now);
        MembersBut(cfg, source, st, ev, now);
      } else if OnGroups(ev) {
        GroupsBut(cfg, source, st, ev, now);
      } else {
        SourcesBut(cfg, source, st, ev, now);
        StaysKeycloak(cfg, source, st, ev, now);
      }
    }
  }

  lemma {:induction false} TurnsKeepBut(cfg: Config, source: SourceId, st: State, turns: seq<Turn>)
    requires ValidConfig(cfg) && InvBut(cfg, source, st) && KeycloakOrGone(cfg, source, st)
    requires forall turn :: turn in turns ==> PossibleTurn(cfg, source, turn)
    ensures var after := AfterTurns(cfg, source, st, turns);
            InvBut(cfg, source, after) && KeycloakOrGone(cfg, source, after)
  {
    if turns != [] {
      var init, last := turns[..|turns| - 1], turns[|turns| - 1];
      TurnsKeepBut(cfg, source, st, init);
      assert last in turns;
      assert PossibleTurn(cfg, source, last);
      match last
      case Served(m) => NextBut(cfg, source, AfterTurns(cfg, source, st, init), m.ev, m.now);
      case PersonSeen(pairs) => SignInBut(cfg, source, AfterTurns(cfg, source, st, init), pairs);
    }
  }

  /**
   * However many sign-ins wrote past the service, and whatever other steps were taken before, between and after them,
   * the Keycloak source's next accepted run brings back the whole invariant.
   */
  lemma AcceptedRunRestores(cfg: Config, source: SourceId, st: State, turns: seq<Turn>, rows: seq<TuplePair>,
                            descriptions: map<string, string>)
    requires ValidConfig(cfg) && Inv(cfg, st) && KeycloakOrGone(cfg, source, st)
    requires forall turn :: turn in turns ==> PossibleTurn(cfg, source, turn)
    ensures var after := RunSync(cfg, AfterTurns(cfg, source, st, turns), source, rows, descriptions);
            after.Ok? ==> Inv(cfg, after.value)
  {
    InvIff(cfg, source, st);
    TurnsKeepBut(cfg, source, st, turns);
    RunBut(cfg, source, AfterTurns(cfg, source, st, turns), source, rows, descriptions);
  }
}
