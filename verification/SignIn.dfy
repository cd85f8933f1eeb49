// What a sign-in writes between two full reads of the directory, and what the
// next sync makes of it (internal/keycloak/source.go:76-153, internal/sync/engine.go:58-131).
module SignIn {
  import opened Wrappers
  import opened Sequences
  import opened Text
  import opened Tokens
  import opened Validate
  import opened Tuples
  import opened Transitions
  import opened ReplaceLaws
  import opened Steps
  import opened Invariants
  import opened Engine
  import opened Keycloak

  /** What ParseMapping leaves: valid groups and configured relations (internal/keycloak/mapping.go:71-110). */
  predicate ValidMapping(cfg: Config, m: Mapping) {
    (forall scope :: scope in m.locations ==> ValidGroupId(m.locations[scope]))
    && (m.allGroup.Some? ==> ValidGroupId(m.allGroup.value))
    && (forall value :: value in m.roles ==> m.roles[value] in cfg.relations)
  }

  // ── Derived rows are stored as they are ─────────────────────────────────────

  /** A row about a valid address, in a valid group, with a configured relation. */
  predicate PersonRow(cfg: Config, p: TuplePair) {
    p.kind == User && ValidGroupId(p.groupId) && ValidEmail(p.memberId) && p.relation in cfg.relations
  }

  lemma DerivedRow(cfg: Config, m: Mapping, email: string, values: set<string>, p: TuplePair)
    requires ValidConfig(cfg) && ValidMapping(cfg, m) && ValidEmail(email)
    requires p in Derived(m, email, values)
    ensures PersonRow(cfg, p)
  {
    var g, r :| g in AllGroups(m, values) && r in Granted(m, values, g) && p == MemberPair(email, g, r);
    var raw :| raw in values && g in Keycloak.GroupsOf(m, raw);
    if RolesAt(m, values, g) != {} {
      var held :| held in values && g in Keycloak.GroupsOf(m, held) && RoleOf(m, held) != "" && r == RoleOf(m, held);
    }
  }

  lemma PersonRowPrepared(cfg: Config, p: TuplePair)
    requires ValidConfig(cfg) && PersonRow(cfg, p)
    ensures ValidPair(p) && PreparedPair(cfg, p) == Ok(p)
  {
    GroupIdChars(p.groupId);
    NormalizeKeeps(p.groupId);
    EmailChars(p.memberId);
    NormalizeKeeps(p.memberId);
    ConfiguredRelation(cfg, p.relation);
  }

  /** The engine stores a full read's rows as they are. */
  lemma FetchedPrepared(cfg: Config, m: Mapping, users: seq<KeycloakUser>, rows: seq<TuplePair>)
    requires ValidConfig(cfg) && ValidMapping(cfg, m) && Elements(rows) == FetchedPairs(m, users)
    ensures forall p :: p in rows ==> ValidPair(p)
    ensures PreparedPairs(cfg, rows) == Ok(rows)
  {
    forall p | p in rows ensures ValidPair(p) && PreparedPair(cfg, p) == Ok(p) {
      assert p in Elements(rows);
      var u :| u in users && Imported(u) && p in Derived(m, NormalizeId(u.email), Elements(u.values));
      DerivedRow(cfg, m, NormalizeId(u.email), Elements(u.values), p);
      PersonRowPrepared(cfg, p);
    }
    PreparedPointwise(cfg, rows, rows);
  }

  /** The rows a sign-in writes are among those of a full read that finds the same attributes. */
  lemma SignInFetched(m: Mapping, users: seq<KeycloakUser>, u: KeycloakUser, pairs: seq<TuplePair>,
                      rows: seq<TuplePair>)
    requires u in users && Imported(u)
    requires Lists(pairs, Derived(m, NormalizeId(u.email), Elements(u.values)))
    requires Elements(rows) == FetchedPairs(m, users)
    ensures ImportKeys(pairs) <= ImportKeys(rows)
  {
    forall p | p in pairs ensures p in rows {
      assert p in Elements(pairs);
      assert p in Elements(rows);
    }
  }

  /** The state a sign-in leaves. */
  function SignedIn(st: State, pairs: seq<TuplePair>, source: SourceId): State {
    st.(tuples := UpsertAll(st.tuples, pairs, source))
  }

  /**
   * What a sign-in newly wrote is there after the next run over the same attributes, whether the run is accepted or
   * refused, and an accepted run does not count it as added.
   */
  lemma SignInSurvives(cfg: Config, m: Mapping, st: State, source: SourceId, users: seq<KeycloakUser>, u: KeycloakUser,
                       pairs: seq<TuplePair>, rows: seq<TuplePair>, descriptions: map<string, string>, now: Instant,
                       k: Key)
    requires ValidConfig(cfg) && ValidMapping(cfg, m)
    requires u in users && Imported(u)
    requires Lists(pairs, Derived(m, NormalizeId(u.email), Elements(u.values)))
    requires Elements(rows) == FetchedPairs(m, users)
    requires k in ImportKeys(pairs) && k !in KeySet(st.tuples)
    ensures var ensured := SignedIn(st, pairs, source);
            NewTuple(k, Some(source), None) in Next(cfg, ensured, Synced(source, rows, descriptions), now).tuples
            && k !in KeySet(Additions(rows, SourceKeys(ensured.tuples, source), source))
  {
    var ensured := SignedIn(st, pairs, source);
    WrittenUnderSource(st.tuples, pairs, source, k);
    SignInFetched(m, users, u, pairs, rows);
    EnsuredSurvives(st.tuples, pairs, source, rows, k);
    FetchedPrepared(cfg, m, users, rows);
    SyncedTuples(cfg, ensured, source, rows, descriptions, now);
  }

  /** A run over rows that are stored as they are replaces the tuples, or leaves them. */
  lemma SyncedTuples(cfg: Config, st: State, source: SourceId, rows: seq<TuplePair>, descriptions: map<string, string>,
                     now: Instant)
    requires PreparedPairs(cfg, rows) == Ok(rows)
    ensures var after := Next(cfg, st, Synced(source, rows, descriptions), now);
            after.tuples == st.tuples || after.tuples == ImportedTuples(st.tuples, rows, source)
  {
    AcceptedTuples(cfg, st, source, rows, descriptions);
    var after := Next(cfg, st, Synced(source, rows, descriptions), now);
    if RunSync(cfg, st, source, rows, descriptions).Ok? {
      assert after == RunSync(cfg, st, source, rows, descriptions).value;
    } else {
      assert after == st;
    }
  }

  lemma AcceptedTuples(cfg: Config, st: State, source: SourceId, rows: seq<TuplePair>,
                       descriptions: map<string, string>)
    requires PreparedPairs(cfg, rows) == Ok(rows)
    ensures var after := RunSync(cfg, st, source, rows, descriptions);
            after.Ok? ==> after.value.tuples == ImportedTuples(st.tuples, rows, source)
  {
  }

  // ── One writer per group ────────────────────────────────────────────────────

  predicate IsOwnGroup(st: State, source: SourceId, id: string) {
    id in st.groups && st.groups[id].sourceId == Some(source)
  }

  /** Every tuple was there, under the source it has, or was written anew under the source that writes. */
  lemma {:induction false} WrittenOrigin(ts: seq<Tuple>, pairs: seq<TuplePair>, source: SourceId, t: Tuple)
    requires t in UpsertAll(ts, pairs, source)
    ensures (exists u :: u in ts && KeyOf(u) == KeyOf(t) && u.sourceId == t.sourceId)
            || (t.sourceId == Some(source) && KeyOf(t) in ImportKeys(pairs) && KeyOf(t) !in KeySet(ts))
  {
    if pairs != [] {
      var init, p := pairs[..|pairs| - 1], pairs[|pairs| - 1];
      assert pairs == init + [p];
      var before := UpsertAll(ts, init, source);
      KeysOneMore(init, p);
      UpsertAllKeys(ts, init, source);
      var u := UpsertOrigin(before, PairKey(p), source, t);
      if u.Some? {
        WrittenOrigin(ts, init, source, u.value);
      }
    }
  }

  lemma UpsertOrigin(ts: seq<Tuple>, k: Key, source: SourceId, t: Tuple) returns (origin: Option<Tuple>)
    requires t in Upsert(ts, k, Some(source), None)
    ensures match origin
            case Some(u) => u in ts && KeyOf(u) == KeyOf(t) && u.sourceId == t.sourceId
            case None => t.sourceId == Some(source) && KeyOf(t) == k && k !in KeySet(ts)
  {
    var i, after := IndexOf(ts, k), Upsert(ts, k, Some(source), None);
    var j :| 0 <= j < |after| && after[j] == t;
    if j < |ts| {
      origin := Some(ts[j]);
    } else {
      origin := None;
      NewTupleKey(k, Some(source), None);
      forall u | u in ts ensures KeyOf(u) != k {
      }
    }
  }

  /**
   * Writing entries past the service keeps one writer per group exactly when each of them is there already or its group
   * is the source's own.
   */
  lemma DirectWritesIff(st: State, pairs: seq<TuplePair>, source: SourceId)
    requires SingleWriter(st)
    ensures SingleWriter(SignedIn(st, pairs, source))
            <==> forall k :: k in ImportKeys(pairs) ==> k in KeySet(st.tuples) || IsOwnGroup(st, source, k.objId)
  {
    var after := SignedIn(st, pairs, source);
    if SingleWriter(after) {
      forall k | k in ImportKeys(pairs) && k !in KeySet(st.tuples) ensures IsOwnGroup(st, source, k.objId) {
        WrittenUnderSource(st.tuples, pairs, source, k);
        assert NewTuple(k, Some(source), None) in after.tuples;
      }
    } else {
      var t :| t in after.tuples && !(t.objId in st.groups && st.groups[t.objId].sourceId == t.sourceId);
      WrittenOrigin(st.tuples, pairs, source, t);
      assert KeyOf(t) in ImportKeys(pairs) && KeyOf(t).objId == t.objId;
    }
  }

  // ── The first sign-in ───────────────────────────────────────────────────────

  /** One scope, one group, no roles. */
  function OneLocation(scope: string, g: string): Mapping {
    Mapping(None, map[scope := g], map[], [], [])
  }

  lemma CutAtSign(value: string, scope: string)
    requires '@' !in value
    ensures var raw := value + "@" + scope;
            Find(raw, '@') == |value| && raw[..|value|] == value && raw[|value| + 1..] == scope
  {
    var raw := value + "@" + scope;
    assert raw[|value|] == '@';
    assert forall i :: 0 <= i < |value| ==> raw[i] == value[i];
  }

  lemma LowerJoined(value: string, scope: string)
    requires IsLower(value) && IsLower(scope)
    ensures IsLower(value + "@" + scope)
  {
    forall c | c in value + "@" + scope ensures LowerChar(c) == c && !IsSpace(c) {
      assert c in value || c == '@' || c in scope;
    }
  }

  lemma ClaimOf(value: string, scope: string)
    requires IsLower(value) && IsLower(scope) && '@' !in value && scope != ""
    ensures Claim(value + "@" + scope) == Some((value, scope))
  {
    LowerJoined(value, scope);
    NormalizeKeeps(value + "@" + scope);
    CutAtSign(value, scope);
  }

  /** A value leading to one group without a role makes plain membership there. */
  lemma OneGroupDerives(m: Mapping, email: string, raw: string, g: string)
    requires Keycloak.GroupsOf(m, raw) == {g} && RoleOf(m, raw) == ""
    ensures Derived(m, email, {raw}) == {MemberPair(email, g, MEMBER)}
  {
    assert AllGroups(m, {raw}) == {g} by {
      assert raw in {raw} && g in Keycloak.GroupsOf(m, raw);
    }
    assert RolesAt(m, {raw}, g) == {};
    assert MEMBER in Granted(m, {raw}, g);
  }

  lemma OneLocationDerives(scope: string, g: string, value: string, email: string)
    requires IsLower(value) && IsLower(scope) && '@' !in value && scope != ""
    ensures Derived(OneLocation(scope, g), email, {value + "@" + scope}) == {MemberPair(email, g, MEMBER)}
  {
    ClaimOf(value, scope);
    OneGroupDerives(OneLocation(scope, g), email, value + "@" + scope, g);
  }

  /**
   * On a new service whose Keycloak source is set up, with every invariant holding, the first person to sign in gets an
   * entry of a group that does not exist yet: their location's, which only the next full run creates.
   */
  lemma FirstSignInHasNoGroup(cfg: Config, name: string, source: SourceId, scope: string, g: string, value: string,
                              email: string, pairs: seq<TuplePair>)
    requires ValidConfig(cfg) && source != cfg.localId && ValidGroupId(g) && ValidEmail(email)
    requires IsLower(value) && IsLower(scope) && '@' !in value && scope != ""
    requires Lists(pairs, Derived(OneLocation(scope, g), email, {value + "@" + scope}))
    ensures var st := WithKeycloak(cfg, name, source, [g]);
            var after := SignedIn(st, pairs, source);
            ValidMapping(cfg, OneLocation(scope, g)) && Inv(cfg, st)
            && NewTuple(Key(g, MEMBER, User, email, ""), Some(source), None) in after.tuples
            && g !in after.groups && !SingleWriter(after)
  {
    var st := WithKeycloak(cfg, name, source, [g]);
    var k := Key(g, MEMBER, User, email, "");
    KeycloakServiceKeeps(cfg, name, source, [g], []);
    OneLocationDerives(scope, g, value, email);
    assert MemberPair(email, g, MEMBER) in Elements(pairs);
    assert PairKey(MemberPair(email, g, MEMBER)) == k;
    assert k in ImportKeys(pairs) && k !in KeySet(st.tuples);
    WrittenUnderSource(st.tuples, pairs, source, k);
    DirectWritesIff(st, pairs, source);
  }
}
