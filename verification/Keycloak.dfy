// Memberships derived from identity-provider attributes (internal/keycloak/mapping.go:148-220)
// and the single-user reads between two full ones (internal/keycloak/source.go:74-153).
module Keycloak {
  import opened Wrappers
  import opened Sequences
  import opened Text
  import opened Tokens
  import opened Validate
  import opened Tuples
  import opened Sort
  import opened Transitions
  import opened ReplaceLaws
  import opened MemoryStore

  /** Scope to location group, value to role, and what is known to place nothing; all in their stored spelling. */
  datatype Mapping = Mapping(
    allGroup: Option<string>,
    locations: map<string, string>,
    roles: map<string, string>,
    ignoredScopes: seq<string>,
    ignoredValues: seq<string>)

  // ── What a set of attribute values grants ───────────────────────────────────

  /** "<value>@<scope>", split at the first "@"; nothing without one or with nothing behind it. */
  function Claim(raw: string): Option<(string, string)> {
    var id := NormalizeId(raw);
    var at := Find(id, '@');
    if at == |id| || at + 1 == |id| then None else Some((id[..at], id[at + 1..]))
  }

  /** The value's scope is a location's. */
  predicate Placed(m: Mapping, raw: string) {
    Claim(raw).Some? && Claim(raw).value.1 in m.locations
  }

  /** The role the value maps to; "" for none. */
  function RoleOf(m: Mapping, raw: string): string {
    if Claim(raw).Some? && Claim(raw).value.0 in m.roles then m.roles[Claim(raw).value.0] else ""
  }

  /** The groups a value leads to: its location's, and the one across all locations. */
  function GroupsOf(m: Mapping, raw: string): set<string> {
    if !Placed(m, raw) then {}
    else {m.locations[Claim(raw).value.1]} + (if m.allGroup.Some? then {m.allGroup.value} else {})
  }

  function AllGroups(m: Mapping, values: set<string>): set<string> {
    set raw, g | raw in values && g in GroupsOf(m, raw) :: g
  }

  /** The roles held in a group: those of the values whose scope leads there. */
  function RolesAt(m: Mapping, values: set<string>, group: string): set<string> {
    set raw | raw in values && group in GroupsOf(m, raw) && RoleOf(m, raw) != "" :: RoleOf(m, raw)
  }

  /** A role implies membership, so plain membership is granted only where no role is. */
  function Granted(m: Mapping, values: set<string>, group: string): set<string> {
    if RolesAt(m, values, group) == {} then {MEMBER} else RolesAt(m, values, group)
  }

  function MemberPair(email: string, group: string, role: string): TuplePair {
    TuplePair(group, role, User, email)
  }

  function Derived(m: Mapping, email: string, values: set<string>): set<TuplePair> {
    set g, r | g in AllGroups(m, values) && r in Granted(m, values, g) :: MemberPair(email, g, r)
  }

  /** A scope no rule names. */
  predicate IsUnknownScope(m: Mapping, raw: string) {
    Claim(raw).Some? && !Placed(m, raw) && Claim(raw).value.1 !in m.ignoredScopes
  }

  /** A value at a known location no rule names. */
  predicate IsUnknownValue(m: Mapping, raw: string) {
    Placed(m, raw) && Claim(raw).value.0 !in m.roles && Claim(raw).value.0 !in m.ignoredValues
  }

  /** An unknown value is noted with its scope. */
  function Spelled(raw: string): string
    requires Claim(raw).Some?
  {
    Claim(raw).value.0 + "@" + Claim(raw).value.1
  }

  // ── Derive ──────────────────────────────────────────────────────────────────

  /** held maps each group joined so far to the roles held there. */
  ghost predicate HeldIs(m: Mapping, values: set<string>, held: map<string, set<string>>) {
    held.Keys == AllGroups(m, values) && forall g :: g in held ==> held[g] == RolesAt(m, values, g)
  }

  /** The groups joined, with a role added where there is one. */
  function WithRole(held: map<string, set<string>>, groups: set<string>, role: string): map<string, set<string>> {
    map g | g in held.Keys + groups :: if g in groups && role != "" then HeldAt(held, g) + {role} else HeldAt(held, g)
  }

  function HeldAt(held: map<string, set<string>>, g: string): set<string> {
    if g in held then held[g] else {}
  }

  lemma WithRoleTwice(held: map<string, set<string>>, a: string, b: string, role: string)
    ensures WithRole(WithRole(held, {a}, role), {b}, role) == WithRole(held, {a} + {b}, role)
  {
    var once := WithRole(held, {a}, role);
    var twice, both := WithRole(once, {b}, role), WithRole(held, {a} + {b}, role);
    forall g | g in both ensures g in twice && twice[g] == both[g] {
      assert HeldAt(held, g) + {role} + {role} == HeldAt(held, g) + {role};
    }
  }

  method Join(held: map<string, set<string>>, order: seq<string>, group: string, role: string)
    returns (held': map<string, set<string>>, order': seq<string>)
    requires Lists(order, held.Keys)
    ensures held' == WithRole(held, {group}, role) && Lists(order', held'.Keys)
  {
    held', order' := held, order;
    if group !in held {
      ListsMore(order, held.Keys, group);
      held', order' := held[group := {}], order + [group];
    }
    if role != "" {
      held' := held'[group := held'[group] + {role}];
    }
    assert held'.Keys == held.Keys + {group};
    assert held' == WithRole(held, {group}, role);
  }

  lemma AllGroupsMore(m: Mapping, values: set<string>, raw: string)
    ensures AllGroups(m, values + {raw}) == AllGroups(m, values) + GroupsOf(m, raw)
  {
  }

  lemma RolesMore(m: Mapping, values: set<string>, raw: string, g: string)
    ensures RolesAt(m, values + {raw}, g)
         == RolesAt(m, values, g) + (if g in GroupsOf(m, raw) && RoleOf(m, raw) != "" then {RoleOf(m, raw)} else {})
    ensures g !in AllGroups(m, values) ==> RolesAt(m, values, g) == {}
  {
  }

  lemma RolesAfter(m: Mapping, values: set<string>, held: map<string, set<string>>, raw: string, g: string)
    requires HeldIs(m, values, held) && g in WithRole(held, GroupsOf(m, raw), RoleOf(m, raw))
    ensures WithRole(held, GroupsOf(m, raw), RoleOf(m, raw))[g] == RolesAt(m, values + {raw}, g)
  {
    RolesMore(m, values, raw, g);
    assert HeldAt(held, g) == RolesAt(m, values, g);
  }

  /** Joining one value's groups with its role accounts for that value. */
  lemma HeldMore(m: Mapping, values: set<string>, held: map<string, set<string>>, raw: string)
    requires HeldIs(m, values, held)
    ensures HeldIs(m, values + {raw}, WithRole(held, GroupsOf(m, raw), RoleOf(m, raw)))
  {
    AllGroupsMore(m, values, raw);
    var after := WithRole(held, GroupsOf(m, raw), RoleOf(m, raw));
    forall g | g in after ensures after[g] == RolesAt(m, values + {raw}, g) {
      RolesAfter(m, values, held, raw, g);
    }
  }

  lemma WithNothing(held: map<string, set<string>>, role: string)
    ensures WithRole(held, {}, role) == held
  {
  }

  /** One value of one user. */
  method JoinValue(m: Mapping, held: map<string, set<string>>, order: seq<string>, raw: string)
    returns (held': map<string, set<string>>, order': seq<string>)
    requires Lists(order, held.Keys)
    ensures held' == WithRole(held, GroupsOf(m, raw), RoleOf(m, raw)) && Lists(order', held'.Keys)
  {
    var role := RoleOf(m, raw);
    if !Placed(m, raw) {
      WithNothing(held, role);
      return held, order;
    }
    var location := m.locations[Claim(raw).value.1];
    held', order' := Join(held, order, location, role);
    if m.allGroup.Some? {
      held', order' := Join(held', order', m.allGroup.value, role);
      WithRoleTwice(held, location, m.allGroup.value, role);
    }
  }

  /** The elements of a set, by string order. */
  method SortedElementsOf(S: set<string>) returns (out: seq<string>)
    ensures Lists(out, S) && IsSorted(out, Leq)
  {
    var listed: seq<string> := [];
    var rest := S;
    while rest != {}
      invariant rest <= S && Lists(listed, S - rest)
    {
      var x :| x in rest;
      ListsMore(listed, S - rest, x);
      assert (S - rest) + {x} == S - (rest - {x});
      listed, rest := listed + [x], rest - {x};
    }
    assert S - rest == S;
    LeqPreorder();
    SortedIsSorted(listed, Leq);
    out := Sorted(listed, Leq);
    ListsPermuted(listed, out, S);
  }

  /** The tuples for the groups listed. */
  function PairsFor(m: Mapping, email: string, values: set<string>, groups: set<string>): set<TuplePair> {
    set g, r | g in groups && r in Granted(m, values, g) :: MemberPair(email, g, r)
  }

  /** One group's tuples, its roles in order. */
  method PairsOf(email: string, group: string, roles: set<string>) returns (out: seq<TuplePair>)
    ensures Lists(out, set r | r in (if roles == {} then {MEMBER} else roles) :: MemberPair(email, group, r))
  {
    if roles == {} {
      return [MemberPair(email, group, MEMBER)];
    }
    var sorted := SortedElementsOf(roles);
    out := [];
    for i := 0 to |sorted|
      invariant Lists(out, set r | r in sorted[..i] :: MemberPair(email, group, r))
    {
      TakeMore(sorted, i);
      assert MemberPair(email, group, sorted[i]) !in set r | r in sorted[..i] :: MemberPair(email, group, r);
      ListsMore(out, set r | r in sorted[..i] :: MemberPair(email, group, r), MemberPair(email, group, sorted[i]));
      out := out + [MemberPair(email, group, sorted[i])];
    }
    assert sorted[..|sorted|] == sorted;
    assert forall r :: r in sorted <==> r in Elements(sorted);
  }

  lemma PairsMore(m: Mapping, email: string, values: set<string>, groups: set<string>, g: string)
    requires g !in groups
    ensures var these := set r | r in Granted(m, values, g) :: MemberPair(email, g, r);
            PairsFor(m, email, values, groups) !! these
            && PairsFor(m, email, values, groups + {g}) == PairsFor(m, email, values, groups) + these
  {
  }

  /** The second loop: the tuples of every group joined, in the order they were joined. */
  method EmitPairs(m: Mapping, email: string, ghost values: set<string>, held: map<string, set<string>>,
                   order: seq<string>)
    returns (out: seq<TuplePair>)
    requires HeldIs(m, values, held) && Lists(order, held.Keys)
    ensures Lists(out, Derived(m, email, values))
  {
    out := [];
    for i := 0 to |order|
      invariant Lists(out, PairsFor(m, email, values, Elements(order[..i])))
    {
      var g := order[i];
      assert g in Elements(order);
      var more := PairsOf(email, g, held[g]);
      TakeMore(order, i);
      ElementsConcat(order[..i], [g]);
      GroupListedOnce(order, i);
      PairsMore(m, email, values, Elements(order[..i]), g);
      ListsConcat(out, PairsFor(m, email, values, Elements(order[..i])), more, Elements(more));
      out := out + more;
    }
    assert order[..|order|] == order;
  }

  method Derive(m: Mapping, email: string, values: seq<string>)
    returns (out: seq<TuplePair>, unknownScopes: set<string>, unknownValues: set<string>)
    ensures Lists(out, Derived(m, email, Elements(values)))
    ensures unknownScopes == set raw | raw in values && IsUnknownScope(m, raw) :: Claim(raw).value.1
    ensures unknownValues == set raw | raw in values && IsUnknownValue(m, raw) :: Spelled(raw)
  {
    var held, order := CollectRoles(m, values);
    unknownScopes, unknownValues := Unplaced(m, values);
    out := EmitPairs(m, email, Elements(values), held, order);
  }

  lemma GroupListedOnce(order: seq<string>, i: nat)
    requires NoDuplicates(order) && i < |order|
    ensures order[i] !in Elements(order[..i])
  {
  }

  /** The loop over the values. */
  method CollectRoles(m: Mapping, values: seq<string>) returns (held: map<string, set<string>>, order: seq<string>)
    ensures HeldIs(m, Elements(values), held) && Lists(order, held.Keys)
  {
    held, order := map[], [];
    ghost var V: set<string> := {};
    for i := 0 to |values|
      invariant V == Elements(values[..i]) && HeldIs(m, V, held) && Lists(order, held.Keys)
    {
      TakeMore(values, i);
      ElementsConcat(values[..i], [values[i]]);
      HeldMore(m, V, held, values[i]);
      V := V + {values[i]};
      held, order := JoinValue(m, held, order, values[i]);
    }
    assert values[..|values|] == values;
  }

  /** What the loop notes down as not placed, once per person. */
  method Unplaced(m: Mapping, values: seq<string>) returns (scopes: set<string>, unknown: set<string>)
    ensures scopes == set raw | raw in values && IsUnknownScope(m, raw) :: Claim(raw).value.1
    ensures unknown == set raw | raw in values && IsUnknownValue(m, raw) :: Spelled(raw)
  {
    scopes, unknown := {}, {};
    for i := 0 to |values|
      invariant scopes == set raw | raw in values[..i] && IsUnknownScope(m, raw) :: Claim(raw).value.1
      invariant unknown == set raw | raw in values[..i] && IsUnknownValue(m, raw) :: Spelled(raw)
    {
      TakeMore(values, i);
      if IsUnknownScope(m, values[i]) {
        scopes := scopes + {Claim(values[i]).value.1};
      }
      if IsUnknownValue(m, values[i]) {
        unknown := unknown + {Spelled(values[i])};
      }
    }
    assert values[..|values|] == values;
  }

  // ── The full read and the single-user reads ─────────────────────────────────

  datatype KeycloakUser = KeycloakUser(email: string, enabled: bool, values: seq<string>)

  /** How long an address that was looked up is not looked up again: ten minutes, in seconds. */
  const RETRY_AFTER: Instant := 600

  predicate Imported(u: KeycloakUser) {
    u.enabled && ValidEmail(NormalizeId(u.email))
  }

  /** The rows a full read hands to the sync engine. */
  function FetchedPairs(m: Mapping, users: seq<KeycloakUser>): set<TuplePair> {
    set u, p | u in users && Imported(u) && p in Derived(m, NormalizeId(u.email), Elements(u.values)) :: p
  }

  function FetchedEmails(users: seq<KeycloakUser>): set<string> {
    set u | u in users && Imported(u) :: NormalizeId(u.email)
  }

  /** The address may be looked up at this moment. */
  predicate Due(tried: map<string, Instant>, email: string, now: Instant) {
    !(email in tried && now - tried[email] < RETRY_AFTER)
  }

  /** What writing the pairs one after the other under a source makes of the tuples. */
  function UpsertAll(ts: seq<Tuple>, pairs: seq<TuplePair>, sourceId: SourceId): seq<Tuple> {
    if pairs == [] then ts
    else Upsert(UpsertAll(ts, pairs[..|pairs| - 1], sourceId), PairKey(pairs[|pairs| - 1]), Some(sourceId), None)
  }

  lemma UpsertAllMore(ts: seq<Tuple>, pairs: seq<TuplePair>, i: nat, sourceId: SourceId)
    requires i < |pairs|
    ensures UpsertAll(ts, pairs[..i + 1], sourceId)
         == Upsert(UpsertAll(ts, pairs[..i], sourceId), PairKey(pairs[i]), Some(sourceId), None)
  {
    assert pairs[..i + 1][..i] == pairs[..i];
  }

  // ── What the source remembers ───────────────────────────────────────────────

  datatype Memory = Memo(sourceId: Option<SourceId>, known: set<string>, tried: map<string, Instant>)

  datatype Call =
    | Named(id: SourceId)
    | Read(users: seq<KeycloakUser>)
    | Seen(rawEmail: string, now: Instant, lookup: Result<Option<KeycloakUser>>)

  /** Someone unknown to the last full read is looked up, once there is a source to write for. */
  predicate Looks(m: Memory, rawEmail: string, now: Instant) {
    var email := NormalizeId(rawEmail);
    ValidEmail(email) && m.sourceId.Some? && email !in m.known && Due(m.tried, email, now)
  }

  /** The directory has an enabled user at the address. */
  predicate Found(lookup: Result<Option<KeycloakUser>>) {
    lookup.Ok? && lookup.value.Some? && lookup.value.value.enabled
  }

  function Remembered(m: Memory, call: Call): Memory {
    match call
    case Named(id) => m.(sourceId := Some(id))
    case Read(users) => m.(known := FetchedEmails(users), tried := map[])
    case Seen(rawEmail, now, lookup) =>
      if !Looks(m, rawEmail, now) then m
      else
        var email := NormalizeId(rawEmail);
        m.(tried := m.tried[email := now], known := if Found(lookup) then m.known + {email} else m.known)
  }

  class IdentitySource {
    const store: Store
    const mapping: Mapping
    var sourceId: Option<SourceId>
    var known: set<string>
    var tried: map<string, Instant>

    function Recall(): Memory
      reads this
    {
      Memo(sourceId, known, tried)
    }

    constructor (store: Store, mapping: Mapping)
      ensures this.store == store && this.mapping == mapping
      ensures sourceId == None && known == {} && tried == map[]
    {
      this.store, this.mapping := store, mapping;
      sourceId, known, tried := None, {}, map[];
    }

    /** Names the source the single-user writes belong to; before that none is made. */
    method SetSourceId(id: SourceId)
      modifies this`sourceId
      ensures Recall() == Remembered(old(Recall()), Named(id))
    {
      sourceId := Some(id);
    }

    /** Every user the directory has, as rows for the engine; forgets earlier lookups. */
    method Fetch(users: seq<KeycloakUser>) returns (pairs: seq<TuplePair>)
      modifies this`known, this`tried
      ensures Elements(pairs) == FetchedPairs(mapping, users)
      ensures Recall() == Remembered(old(Recall()), Read(users))
    {
      pairs := [];
      var emails: set<string> := {};
      for i := 0 to |users|
        invariant Elements(pairs) == FetchedPairs(mapping, users[..i])
        invariant emails == FetchedEmails(users[..i])
      {
        TakeMore(users, i);
        var u := users[i];
        var email := NormalizeId(u.email);
        if u.enabled && ValidEmail(email) {
          var derived, scopes, unknown := Derive(mapping, email, u.values);
          ElementsConcat(pairs, derived);
          FetchedMore(mapping, users[..i], u);
          pairs, emails := pairs + derived, emails + {email};
        } else {
          FetchedMore(mapping, users[..i], u);
        }
      }
      assert users[..|users|] == users;
      known, tried := emails, map[];
    }

    /**
     * Reads one user the last full read did not know and writes their memberships; lookup is what the directory
     * answers.
     */
    method EnsureUser(rawEmail: string, now: Instant, lookup: Result<Option<KeycloakUser>>)
      returns (looked: bool, ghost pairs: seq<TuplePair>)
      requires store.Valid()
      modifies this`known, this`tried, store, store.data
      ensures store.Valid()
      ensures looked == Looks(old(Recall()), rawEmail, now)
      ensures Recall() == Remembered(old(Recall()), Seen(rawEmail, now, lookup))
      ensures if looked && Found(lookup) then
                Lists(pairs, Derived(mapping, NormalizeId(rawEmail), Elements(lookup.value.value.values)))
                && store.Contents()
                == old(store.Contents()).(tuples := UpsertAll(old(store.Tuples()), pairs, sourceId.value))
              else store.Contents() == old(store.Contents())
    {
      pairs := [];
      var email := NormalizeId(rawEmail);
      if !ValidEmail(email) {
        return false, pairs;
      }
      if sourceId == None || email in known || (email in tried && now - tried[email] < RETRY_AFTER) {
        return false, pairs;
      }
      tried := tried[email := now];
      looked := true;
      if lookup.Err? || lookup.value.None? || !lookup.value.value.enabled {
        return;
      }
      var derived, scopes, unknown := Derive(mapping, email, lookup.value.value.values);
      pairs := derived;
      WritePairs(derived, sourceId.value);
      known := known + {email};
    }

    method WritePairs(pairs: seq<TuplePair>, source: SourceId)
      requires store.Valid()
      modifies store, store.data
      ensures store.Valid()
      ensures store.Contents() == old(store.Contents()).(tuples := UpsertAll(old(store.Tuples()), pairs, source))
    {
      ghost var st := store.Contents();
      for i := 0 to |pairs|
        invariant store.Valid() && (store.data == old(store.data) || fresh(store.data))
        invariant store.Contents() == st.(tuples := UpsertAll(st.tuples, pairs[..i], source))
      {
        UpsertAllMore(st.tuples, pairs, i, source);
        store.AddMember(pairs[i].groupId, pairs[i].relation, pairs[i].kind, pairs[i].memberId, Some(source), None);
      }
      assert pairs[..|pairs|] == pairs;
    }
  }

  lemma FetchedMore(m: Mapping, users: seq<KeycloakUser>, u: KeycloakUser)
    ensures FetchedPairs(m, users + [u]) == FetchedPairs(m, users)
              + (if Imported(u) then Derived(m, NormalizeId(u.email), Elements(u.values)) else {})
    ensures FetchedEmails(users + [u]) == FetchedEmails(users) + (if Imported(u) then {NormalizeId(u.email)} else {})
  {
  }

  // ── What a single-user read writes, the next full run owns ──────────────────

  lemma UpsertKeyed(ts: seq<Tuple>, k: Key, source: SourceId)
    ensures var after := Upsert(ts, k, Some(source), None);
            (forall t :: t in ts && KeyOf(t) != k ==> t in after)
            && (k !in KeySet(ts) ==> NewTuple(k, Some(source), None) in after)
            && (NewTuple(k, Some(source), None) in ts ==> NewTuple(k, Some(source), None) in after)
            && KeySet(after) == KeySet(ts) + {k}
  {
    var i, after := IndexOf(ts, k), Upsert(ts, k, Some(source), None);
    if i < |ts| {
      assert ts[i] in ts;
      forall j | 0 <= j < |ts|
        ensures after[j] in after && KeyOf(after[j]) == KeyOf(ts[j])
        ensures j != i ==> after[j] == ts[j]
      {
      }
      forall t | t in ts && (KeyOf(t) != k || t == NewTuple(k, Some(source), None)) ensures t in after {
        var j :| 0 <= j < |ts| && ts[j] == t;
        assert after[j] == t;
      }
      forall t | t in after ensures KeyOf(t) in KeySet(ts) {
        var j :| 0 <= j < |after| && after[j] == t;
        assert ts[j] in ts;
      }
      forall t | t in ts ensures KeyOf(t) in KeySet(after) {
        var j :| 0 <= j < |ts| && ts[j] == t;
        assert after[j] in after;
      }
    } else {
      KeySetMore(ts, NewTuple(k, Some(source), None));
      NewTupleKey(k, Some(source), None);
    }
  }

  /** A pair whose key was not stored is written as a tuple of the source, without expiry. */
  lemma {:induction false} WrittenUnderSource(ts: seq<Tuple>, pairs: seq<TuplePair>, source: SourceId, k: Key)
    requires k in ImportKeys(pairs) && k !in KeySet(ts)
    ensures NewTuple(k, Some(source), None) in UpsertAll(ts, pairs, source)
  {
    var init, p := pairs[..|pairs| - 1], pairs[|pairs| - 1];
    var before := UpsertAll(ts, init, source);
    assert pairs == init + [p];
    KeysOneMore(init, p);
    NewTupleKey(k, Some(source), None);
    UpsertKeyed(before, PairKey(p), source);
    if k in ImportKeys(init) {
      WrittenUnderSource(ts, init, source, k);
    } else {
      UpsertAllKeys(ts, init, source);
    }
  }

  lemma {:induction false} UpsertAllKeys(ts: seq<Tuple>, pairs: seq<TuplePair>, source: SourceId)
    ensures KeySet(UpsertAll(ts, pairs, source)) == KeySet(ts) + ImportKeys(pairs)
  {
    if pairs != [] {
      var init, p := pairs[..|pairs| - 1], pairs[|pairs| - 1];
      assert pairs == init + [p];
      UpsertAllKeys(ts, init, source);
      KeysOneMore(init, p);
      UpsertKeyed(UpsertAll(ts, init, source), PairKey(p), source);
    }
  }

  /** An import listing the same keys neither removes nor re-adds what was newly written. */
  lemma EnsuredSurvives(ts: seq<Tuple>, pairs: seq<TuplePair>, source: SourceId, imported: seq<TuplePair>, k: Key)
    requires k in ImportKeys(pairs) && k !in KeySet(ts)
    requires ImportKeys(pairs) <= ImportKeys(imported)
    ensures var ensured := UpsertAll(ts, pairs, source);
            NewTuple(k, Some(source), None) in ImportedTuples(ensured, imported, source)
            && k !in KeySet(Additions(imported, SourceKeys(ensured, source), source))
  {
    var ensured, t := UpsertAll(ts, pairs, source), NewTuple(k, Some(source), None);
    WrittenUnderSource(ts, pairs, source, k);
    NewTupleKey(k, Some(source), None);
    KeptAsIs(ensured, imported, source, t);
    AdditionsAreNewKeys(imported, SourceKeys(ensured, source), source);
  }

  // ── At most one lookup per address in ten minutes ───────────────────────────

  predicate LooksFor(m: Memory, call: Call, email: string) {
    call.Seen? && NormalizeId(call.rawEmail) == email && Looks(m, call.rawEmail, call.now)
  }

  /** What is remembered after the first n of a row of calls, whatever they were. */
  function MemoryAfter(m: Memory, calls: seq<Call>, n: nat): Memory
    requires n <= |calls|
  {
    if n == 0 then m else Remembered(MemoryAfter(m, calls, n - 1), calls[n - 1])
  }

  /** The i-th call looks the address up in the directory. */
  predicate LooksUp(m: Memory, calls: seq<Call>, i: nat, email: string)
    requires i < |calls|
  {
    LooksFor(MemoryAfter(m, calls, i), calls[i], email)
  }

  predicate NoReadBetween(calls: seq<Call>, i: nat, j: nat)
    requires i <= j <= |calls|
  {
    forall k :: i <= k < j ==> !calls[k].Read?
  }

  /** The clock does not run backwards. */
  predicate InOrder(calls: seq<Call>) {
    forall a, b :: 0 <= a <= b < |calls| && calls[a].Seen? && calls[b].Seen? ==> calls[a].now <= calls[b].now
  }

  /**
   * What one call other than a full read changes: an address looked up now is remembered now, and what was known stays.
   */
  lemma OneCall(m: Memory, call: Call, email: string)
    requires !call.Read?
    ensures var after := Remembered(m, call);
            var looked := LooksFor(m, call, email);
            (email in after.tried <==> email in m.tried || looked)
            && (email in after.tried ==> after.tried[email] == if looked then call.now else m.tried[email])
            && (email in after.known <==> email in m.known || (looked && Found(call.lookup)))
            && (after.sourceId.Some? <==> m.sourceId.Some? || call.Named?)
  {
  }

  lemma {:induction false} RemembersLookup(m: Memory, calls: seq<Call>, i: nat, n: nat, email: string)
    requires i < n <= |calls| && LooksUp(m, calls, i, email) && InOrder(calls) && NoReadBetween(calls, i, n)
    ensures var after := MemoryAfter(m, calls, n);
            email in after.tried && after.tried[email] >= calls[i].now
            && (Found(calls[i].lookup) ==> email in after.known)
    decreases n
  {
    OneCall(MemoryAfter(m, calls, n - 1), calls[n - 1], email);
    if i < n - 1 {
      RemembersLookup(m, calls, i, n - 1, email);
    }
  }

  /**
   * Two lookups of one address, however it was written, have a full read between them, or the first found nobody and
   * the second came ten minutes later or more.
   */
  lemma LookupsSpaced(m: Memory, calls: seq<Call>, i: nat, j: nat, email: string)
    requires i < j < |calls| && InOrder(calls)
    requires LooksUp(m, calls, i, email) && LooksUp(m, calls, j, email)
    ensures (exists k :: i < k < j && calls[k].Read?)
            || (!Found(calls[i].lookup) && calls[j].now - calls[i].now >= RETRY_AFTER)
  {
    if NoReadBetween(calls, i, j) {
      RemembersLookup(m, calls, i, j, email);
    }
  }

  /** No earlier call since the last full read stands in the way of looking the address up at this moment. */
  ghost predicate NothingRecent(m: Memory, calls: seq<Call>, n: nat, email: string, now: Instant)
    requires n <= |calls|
  {
    forall i :: 0 <= i < n && LooksUp(m, calls, i, email) ==>
      !Found(calls[i].lookup) && now - calls[i].now >= RETRY_AFTER
  }

  /** What is remembered as tried was tried. */
  lemma {:induction false} LastTried(m: Memory, calls: seq<Call>, n: nat, email: string) returns (i: nat)
    requires n <= |calls| && m.tried == map[] && NoReadBetween(calls, 0, n)
    requires email in MemoryAfter(m, calls, n).tried
    ensures i < n && LooksUp(m, calls, i, email) && calls[i].now == MemoryAfter(m, calls, n).tried[email]
    decreases n
  {
    OneCall(MemoryAfter(m, calls, n - 1), calls[n - 1], email);
    if LooksUp(m, calls, n - 1, email) {
      i := n - 1;
    } else {
      i := LastTried(m, calls, n - 1, email);
    }
  }

  /** Whoever is known since the last full read was looked up and found. */
  lemma {:induction false} LookupThatFound(m: Memory, calls: seq<Call>, n: nat, email: string) returns (i: nat)
    requires n <= |calls| && NoReadBetween(calls, 0, n)
    requires email in MemoryAfter(m, calls, n).known && email !in m.known
    ensures i < n && LooksUp(m, calls, i, email) && Found(calls[i].lookup)
    decreases n
  {
    OneCall(MemoryAfter(m, calls, n - 1), calls[n - 1], email);
    if email in MemoryAfter(m, calls, n - 1).known {
      i := LookupThatFound(m, calls, n - 1, email);
    } else {
      i := n - 1;
    }
  }

  predicate SourceNamed(m: Memory, calls: seq<Call>, n: nat)
    requires n <= |calls|
  {
    m.sourceId.Some? || exists k :: 0 <= k < n && calls[k].Named?
  }

  lemma {:induction false} SinceRead(m: Memory, calls: seq<Call>, n: nat, email: string)
    requires n <= |calls| && NoReadBetween(calls, 0, n)
    ensures var after := MemoryAfter(m, calls, n);
            (email in m.known ==> email in after.known) && (after.sourceId.Some? <==> SourceNamed(m, calls, n))
    decreases n
  {
    if n > 0 {
      SinceRead(m, calls, n - 1, email);
      OneCall(MemoryAfter(m, calls, n - 1), calls[n - 1], email);
    }
  }

  /**
   * After a full read, a person is looked up exactly when there is a source to write for, the read did not list them,
   * no lookup since has found them, and the last one is ten minutes ago.
   */
  lemma LookupIff(m: Memory, calls: seq<Call>, j: nat)
    requires j < |calls| && calls[j].Seen? && InOrder(calls)
    requires m.tried == map[] && NoReadBetween(calls, 0, j)
    ensures var email := NormalizeId(calls[j].rawEmail);
            LooksUp(m, calls, j, email)
            <==> ValidEmail(email) && SourceNamed(m, calls, j) && email !in m.known
                 && NothingRecent(m, calls, j, email, calls[j].now)
  {
    var email := NormalizeId(calls[j].rawEmail);
    var after := MemoryAfter(m, calls, j);
    SinceRead(m, calls, j, email);
    if email in after.tried {
      var i := LastTried(m, calls, j, email);
    }
    if email in after.known && email !in m.known {
      var i := LookupThatFound(m, calls, j, email);
    }
    forall i | 0 <= i < j && LooksUp(m, calls, i, email)
      ensures email in after.tried && after.tried[email] >= calls[i].now
      ensures Found(calls[i].lookup) ==> email in after.known
    {
      RemembersLookup(m, calls, i, j, email);
    }
  }
}
