// What accepted requests on groups and their managers do, column by column, and
// what a caller without rights cannot do (internal/groupmgmt/service.go:149-357, 638-680).
module GroupRequests {
  import opened Wrappers
  import opened Sequences
  import opened Text
  import opened Tokens
  import opened Patterns
  import opened Validate
  import opened Tuples
  import opened Resolution
  import opened Transitions
  import opened Steps
  import opened Invariants
  import opened Rules
  import opened Requests

  // ── DeleteGroup ─────────────────────────────────────────────────────────────

  /** The row is about the group, or enters it in another one. */
  predicate Concerns(t: Tuple, id: string) {
    t.objId == id || (t.kind == Subgroup && t.subjId == id)
  }

  /** The manager token is the group's, plain or with a relation. */
  predicate TokenOfGroup(token: string, id: string) {
    token == GROUP_PREFIX + id || GROUP_PREFIX + id + "#" <= token
  }

  lemma DropPrefix(p: string, a: string, b: string)
    ensures p + a <= p + b <==> a <= b
    ensures p + a == p + b <==> a == b
  {
    assert (p + a)[|p|..] == a && (p + b)[|p|..] == b;
    if p + a <= p + b {
      assert (p + b)[..|p + a|] == p + a;
      assert b[..|a|] == a;
    }
    if a <= b {
      assert p + b == p + a + b[|a|..];
    }
  }

  lemma SplitAtSeparator(rest: string, id: string)
    requires '#' !in id
    ensures SplitGroupRelation(rest).0 == id <==> rest == id || id + "#" <= rest
  {
    var i := Find(rest, '#');
    if i < |rest| && rest[..i] == id {
      assert rest == id + "#" + rest[i + 1..];
    }
    if id + "#" <= rest {
      assert rest[|id|] == '#' && rest[..|id|] == id;
      forall j | 0 <= j < |id| ensures rest[j] != '#' {
        assert rest[j] == id[j] && id[j] in id;
      }
    }
  }

  lemma NamedByToken(token: string, id: string)
    requires '#' !in id
    ensures ManagedGroupName(token) == Some(id) <==> TokenOfGroup(token, id)
  {
    var p := GROUP_PREFIX;
    assert p + id + "#" == p + (id + "#");
    if p <= token {
      var rest := token[|p|..];
      assert token == p + rest;
      DropPrefix(p, id, rest);
      DropPrefix(p, id + "#", rest);
      SplitAtSeparator(rest, id);
    }
  }

  /**
   * What is left of the manager lists: the group's own is gone, and of every other one exactly its tokens, in order.
   */
  ghost predicate TokensGone(managers: map<string, seq<string>>, managers': map<string, seq<string>>, id: string) {
    managers'.Keys == managers.Keys - {id}
    && forall g :: g in managers' ==>
         exists at :: PicksOut(at, managers[g], managers'[g]) && LeavesOut(at, managers[g], id)
  }

  predicate LeavesOut(at: seq<nat>, tokens: seq<string>, id: string) {
    forall i: nat :: i < |tokens| ==> (i in at <==> !TokenOfGroup(tokens[i], id))
  }

  lemma ManagersGone(managers: map<string, seq<string>>, id: string)
    requires '#' !in id
    ensures TokensGone(managers, ManagersWithout(managers, id), id)
  {
    var managers' := ManagersWithout(managers, id);
    forall g | g in managers'
      ensures exists at :: PicksOut(at, managers[g], managers'[g]) && LeavesOut(at, managers[g], id)
    {
      var at := FilterPicks(managers[g], NotNaming(id));
      forall i: nat | i < |managers[g]| ensures i in at <==> !TokenOfGroup(managers[g][i], id) {
        NamedByToken(managers[g][i], id);
      }
    }
  }

  /**
   * Deleting a group is accepted exactly from an admin, for a group maintained here. The group goes, every row about it
   * or entering it, its managers, and its tokens from every other list; nothing else changes, and order stays.
   */
  lemma DeletedGroup(cfg: Config, st: State, caller: Caller, groupToken: string, id: string) returns (at: seq<nat>)
    requires ParseGroupToken(groupToken) == Ok(id) && '#' !in id
    ensures var after := DeleteGroup(cfg, st, caller, groupToken);
            (after.Ok? <==> caller.admin && id in st.groups && st.groups[id].sourceId == Some(cfg.localId))
            && (after.Ok? ==>
                  after.value.groups == st.groups - {id} && after.value.sources == st.sources
                  && PicksOut(at, st.tuples, after.value.tuples)
                  && (forall i: nat :: i < |st.tuples| ==> (i in at <==> !Concerns(st.tuples[i], id)))
                  && TokensGone(st.managers, after.value.managers, id))
  {
    EditIff(cfg, st, caller, groupToken, id);
    at := FilterPicks(st.tuples, NotMentioning(id));
    ManagersGone(st.managers, id);
  }

  /** Afterwards people have exactly what a chain of rows around the group gives them. */
  lemma DeletedHolds(cfg: Config, st: State, after: State, caller: Caller, groupToken: string, id: string, now: Instant,
                     email: string, p: Pair)
    requires ParseGroupToken(groupToken) == Ok(id) && '#' !in id
    requires DeleteGroup(cfg, st, caller, groupToken) == Ok(after)
    ensures p in Held(LiveTuples(after.tuples, now), email)
            <==> exists c ::
                   IsHeldBy(LiveTuples(st.tuples, now), email, c, p) && forall t :: t in c ==> !Concerns(t, id)
  {
    var at := DeletedGroup(cfg, st, caller, groupToken, id);
    var L, L' := LiveTuples(st.tuples, now), LiveTuples(after.tuples, now);
    PickedElements(at, st.tuples, after.tuples, id);
    HeldHasChain(L', email, p);
    if c :| IsHeldBy(L', email, c, p) {
      assert IsHeldBy(L, email, c, p) && forall t :: t in c ==> !Concerns(t, id);
    }
    if c :| IsHeldBy(L, email, c, p) && forall t :: t in c ==> !Concerns(t, id) {
      assert IsHeldBy(L', email, c, p);
    }
  }

  lemma PickedElements(at: seq<nat>, ts: seq<Tuple>, ts': seq<Tuple>, id: string)
    requires PicksOut(at, ts, ts') && forall i: nat :: i < |ts| ==> (i in at <==> !Concerns(ts[i], id))
    ensures forall t :: t in ts' <==> t in ts && !Concerns(t, id)
  {
    forall t | t in ts' ensures t in ts && !Concerns(t, id) {
      var n :| 0 <= n < |ts'| && ts'[n] == t;
      assert at[n] in at;
    }
    forall t | t in ts && !Concerns(t, id) ensures t in ts' {
      var i :| 0 <= i < |ts| && ts[i] == t;
      assert i in at;
      var n :| 0 <= n < |at| && at[n] == i;
      assert ts'[n] == t;
    }
  }

  // ── Managers ────────────────────────────────────────────────────────────────

  /** A person, or a configured relation of a group there is. */
  predicate MayMaintain(cfg: Config, st: State, k: Key) {
    match k.kind
    case User => true
    case Pattern => false
    case Subgroup => k.subjRel in cfg.relations && k.subjId in st.groups
  }

  /** The token a subject maintains groups by. */
  function TokenOf(k: Key): string {
    MemberToken(k.kind, k.subjId, k.subjRel)
  }

  lemma CheckedManager(cfg: Config, st: State, managerToken: string, k: Key)
    requires ValidConfig(cfg) && WellFormedKey(k) && AsksFor(managerToken, k)
    ensures CheckManagerToken(cfg, st, managerToken).Ok? <==> MayMaintain(cfg, st, k)
    ensures MayMaintain(cfg, st, k) ==> CheckManagerToken(cfg, st, managerToken) == Ok(TokenOf(k))
  {
    var (kind, id) := ParseMemberToken(managerToken).value;
    var prefix := KindPrefix(k.kind);
    assert BuildToken(kind, id)[|prefix|..] == id;
    assert k.kind != Subgroup ==> TokenOf(k)[|prefix|..] == k.subjId;
    if k.kind == Subgroup {
      assert TokenOf(k)[|prefix|..] == JoinGroupRelation(k.subjId, k.subjRel);
      SplitJoin(k.subjId, k.subjRel);
      ParsedMemberValid(managerToken);
      assert SplitGroupRelation(id) == (k.subjId, k.subjRel);
      assert ValidGroupId(id[..Find(id, '#')]);
      CheckedName(cfg, id, k.subjRel);
    }
  }

  /**
   * Adding a manager puts the token asked for on the group's list, once, and changes no other list and nothing else.
   */
  lemma AddedManager(cfg: Config, st: State, caller: Caller, groupToken: string, managerToken: string, id: string,
                     k: Key)
    requires ValidConfig(cfg) && ParseGroupToken(groupToken) == Ok(id) && WellFormedKey(k) && AsksFor(managerToken, k)
    ensures var after := AddManager(cfg, st, caller, groupToken, managerToken);
            var list := if id in st.managers then st.managers[id] else [];
            (after.Ok? <==> MayEdit(cfg, st, caller, id) && MayMaintain(cfg, st, k))
            && (after.Ok? ==>
                  after.value == st.(managers := if TokenOf(k) in list then st.managers
                                                 else st.managers[id := list + [TokenOf(k)]]))
  {
    EditIff(cfg, st, caller, groupToken, id);
    CheckedManager(cfg, st, managerToken, k);
  }

  /** Whoever is answered the token may edit the group from then on. */
  lemma ManagerMayEdit(cfg: Config, st: State, after: State, caller: Caller, groupToken: string, managerToken: string,
                       id: string, k: Key, manager: Caller)
    requires ValidConfig(cfg) && ParseGroupToken(groupToken) == Ok(id) && WellFormedKey(k) && AsksFor(managerToken, k)
    requires AddManager(cfg, st, caller, groupToken, managerToken) == Ok(after)
    requires TokenOf(k) in manager.tokens
    ensures MayEdit(cfg, after, manager, id)
  {
    AddedManager(cfg, st, caller, groupToken, managerToken, id, k);
    assert TokenOf(k) in after.managers[id];
  }

  /**
   * Everyone with a relation a group is maintained by may edit it, once their tokens are the ones they are answered.
   */
  lemma RelationMayEdit(cfg: Config, st: State, caller: Caller, now: Instant, email: string, id: string, group: string,
                        relation: string, n: nat)
    requires id in st.groups && st.groups[id].sourceId == Some(cfg.localId)
    requires id in st.managers && GroupToken(group, relation) in st.managers[id] && relation != ""
    requires forall token :: AnsweredTo(st.tuples, now, email, token) ==> token in caller.tokens
    requires Has(st.tuples, now, email, group, relation, n)
    ensures MayEdit(cfg, st, caller, id)
  {
    assert AnsweredTo(st.tuples, now, email, GroupToken(group, relation));
  }

  // ── CreateGroup ─────────────────────────────────────────────────────────────

  lemma NoPrefix(core: string, id: string)
    requires SameLetters(core, id) && ':' !in id
    ensures !(GROUP_PREFIX <= core)
  {
    forall i | 0 <= i < |core| ensures core[i] != ':' {
      assert id[i] in id;
    }
    assert GROUP_PREFIX[5] == ':';
  }

  /** The id of a new group, with or without the prefix in front of it. */
  lemma SpelledNewGroup(rawId: string, id: string)
    requires ValidGroupId(id) && (Spells(rawId, GROUP_PREFIX, id) || Spells(rawId, "", id))
    ensures NormalizeId(TrimPrefix(TrimSpace(rawId), GROUP_PREFIX)) == id
  {
    GroupIdChars(id);
    if Spells(rawId, GROUP_PREFIX, id) {
      var core := SpelledToken(rawId, GROUP_PREFIX, id);
      TrimmedPrefix(GROUP_PREFIX, core);
    } else {
      var core := SpelledToken(rawId, "", id);
      NoPrefix(core, id);
      assert "" + core == core;
    }
  }

  lemma TrimmedPrefix(prefix: string, s: string)
    ensures TrimPrefix(prefix + s, prefix) == s
  {
  }

  /** The tokens of the subjects, in order. */
  function TokensOf(subjects: seq<Key>): seq<string> {
    if subjects == [] then [] else TokensOf(subjects[..|subjects| - 1]) + [TokenOf(subjects[|subjects| - 1])]
  }

  lemma {:induction false} TokensOfElements(subjects: seq<Key>)
    ensures Elements(TokensOf(subjects)) == set k | k in subjects :: TokenOf(k)
  {
    if subjects != [] {
      var last := |subjects| - 1;
      InitAndLast(subjects);
      TokensOfElements(subjects[..last]);
      ElementsConcat(TokensOf(subjects[..last]), [TokenOf(subjects[last])]);
      assert forall k :: k in subjects <==> k in subjects[..last] || k == subjects[last];
    }
  }

  /** Every manager asked for names its subject. */
  predicate ManagersAsked(managers: seq<string>, subjects: seq<Key>) {
    |subjects| == |managers|
    && forall i :: 0 <= i < |managers| ==> WellFormedKey(subjects[i]) && AsksFor(managers[i], subjects[i])
  }

  predicate AllMaintain(cfg: Config, st: State, subjects: seq<Key>) {
    forall i :: 0 <= i < |subjects| ==> MayMaintain(cfg, st, subjects[i])
  }

  lemma OneMoreManager(cfg: Config, st: State, managers: seq<string>, subjects: seq<Key>, token: string, k: Key)
    requires CheckManagerTokens(cfg, st, managers).Ok? <==> AllMaintain(cfg, st, subjects)
    requires AllMaintain(cfg, st, subjects) ==> CheckManagerTokens(cfg, st, managers) == Ok(TokensOf(subjects))
    requires CheckManagerToken(cfg, st, token).Ok? <==> MayMaintain(cfg, st, k)
    requires MayMaintain(cfg, st, k) ==> CheckManagerToken(cfg, st, token) == Ok(TokenOf(k))
    ensures AllMaintain(cfg, st, subjects + [k]) <==> AllMaintain(cfg, st, subjects) && MayMaintain(cfg, st, k)
    ensures CheckManagerTokens(cfg, st, managers + [token]).Ok? <==> AllMaintain(cfg, st, subjects + [k])
    ensures AllMaintain(cfg, st, subjects + [k]) ==>
              CheckManagerTokens(cfg, st, managers + [token]) == Ok(TokensOf(subjects + [k]))
  {
    assert (managers + [token])[..|managers|] == managers && (subjects + [k])[..|subjects|] == subjects;
    assert (subjects + [k])[|subjects|] == k;
    assert forall i :: 0 <= i < |subjects| ==> (subjects + [k])[i] == subjects[i];
  }

  lemma {:induction false} CheckedManagerList(cfg: Config, st: State, managers: seq<string>, subjects: seq<Key>)
    requires ValidConfig(cfg) && ManagersAsked(managers, subjects)
    ensures CheckManagerTokens(cfg, st, managers).Ok? <==> AllMaintain(cfg, st, subjects)
    ensures AllMaintain(cfg, st, subjects) ==> CheckManagerTokens(cfg, st, managers) == Ok(TokensOf(subjects))
  {
    if managers != [] {
      var last := |managers| - 1;
      InitAndLast(managers);
      InitAndLast(subjects);
      CheckedManagerList(cfg, st, managers[..last], subjects[..last]);
      CheckedManager(cfg, st, managers[last], subjects[last]);
      OneMoreManager(cfg, st, managers[..last], subjects[..last], managers[last], subjects[last]);
    }
  }

  lemma {:induction false} ListedManagers(managers: map<string, seq<string>>, id: string, tokens: seq<string>)
    requires ManagersOf(managers, id) == []
    ensures var managers' := WithManagers(managers, id, tokens);
            Lists(ManagersOf(managers', id), Elements(tokens))
            && managers'.Keys <= managers.Keys + {id} && managers.Keys <= managers'.Keys
            && forall g :: g in managers && g != id ==> managers'[g] == managers[g]
  {
    if tokens != [] {
      var init, last := tokens[..|tokens| - 1], tokens[|tokens| - 1];
      ListedManagers(managers, id, init);
      assert tokens == init + [last];
      ElementsConcat(init, [last]);
      var list := ManagersOf(WithManagers(managers, id, init), id);
      if last in list {
        assert last in Elements(list);
      } else {
        assert last !in Elements(list);
        ListsMore(list, Elements(init), last);
      }
    }
  }

  /**
   * Creating a group is accepted exactly from an admin, for an id that is free and that no other source has reserved,
   * with managers who may maintain a group; then the group is maintained here and by exactly those managers.
   */
  lemma CreatedGroup(cfg: Config, st: State, caller: Caller, rawId: string, displayName: string, description: string,
                     managers: seq<string>, id: string, subjects: seq<Key>)
    requires ValidConfig(cfg) && ValidGroupId(id) && NormalizeId(TrimPrefix(TrimSpace(rawId), GROUP_PREFIX)) == id
    requires ManagersAsked(managers, subjects) && ManagersOf(st.managers, id) == []
    ensures CreateGroup(cfg, st, caller, rawId, displayName, description, managers).Ok?
            <==> caller.admin && id !in st.groups && !ReservedElsewhere(cfg, st, id) && AllMaintain(cfg, st, subjects)
    ensures match CreateGroup(cfg, st, caller, rawId, displayName, description, managers)
            case Ok(after) =>
              after == st.(groups := after.groups, managers := after.managers)
              && after.groups
                 == st.groups[id := Group(if TrimSpace(displayName) == "" then id else displayName, description,
                                          Some(cfg.localId))]
              && Lists(ManagersOf(after.managers, id), set k | k in subjects :: TokenOf(k))
              && forall g :: g in st.managers && g != id ==> g in after.managers && after.managers[g] == st.managers[g]
            case Err(_) => true
  {
    CheckedManagerList(cfg, st, managers, subjects);
    TokensOfElements(subjects);
    ListedManagers(st.managers, id, TokensOf(subjects));
    assert ReservedByOther(st, cfg.localId, id) <==> ReservedElsewhere(cfg, st, id);
  }

  /** A glob another source has reserved matches the id. */
  ghost predicate ReservedElsewhere(cfg: Config, st: State, id: string) {
    exists s, glob ::
      s in st.sources && s != cfg.localId && glob in st.sources[s].reserved && GlobMatches(glob, id)
  }

  // ── Rights ──────────────────────────────────────────────────────────────────

  /** The rows about other groups than the key's are there as often as before. */
  lemma UpsertElsewhere(ts: seq<Tuple>, k: Key, source: Option<SourceId>, expires: Option<Instant>, t: Tuple)
    requires t.objId != k.objId
    ensures multiset(Upsert(ts, k, source, expires))[t] == multiset(ts)[t]
  {
    var i := IndexOf(ts, k);
    if i < |ts| {
      PutCounts(ts, i, ts[i].(expires := expires), t);
    }
  }

  lemma MergeElsewhere(ts: seq<Tuple>, target: nat, kept: Tuple, from: nat, t: Tuple)
    requires target < |ts| && from < |ts| && t != ts[target] && t != kept && t != ts[from]
    ensures multiset(Without(ts[target := kept], from))[t] == multiset(ts)[t]
  {
    PutCounts(ts, target, kept, t);
    DropCounts(ts[target := kept], from, t);
  }

  lemma RerelateElsewhere(ts: seq<Tuple>, k: Key, to: string, t: Tuple)
    requires Rerelate(ts, k, to).Ok? && t.objId != k.objId
    ensures multiset(Rerelate(ts, k, to).value)[t] == multiset(ts)[t]
  {
    var from, target := IndexOf(ts, k), IndexOf(ts, k.(relation := to));
    assert KeyOf(ts[from]) == k;
    if k.relation != to {
      if target == |ts| {
        PutCounts(ts, from, ts[from].(relation := to), t);
      } else {
        assert ts[target].objId == k.objId && ts[from].objId == k.objId;
        MergeElsewhere(ts, target, ts[target].(expires := LaterExpiry(ts[from].expires, ts[target].expires)), from, t);
      }
    }
  }

  /** The group, its managers and the rows about it are as before. */
  ghost predicate SameGroup(st: State, after: State, g: string) {
    (g in after.groups <==> g in st.groups) && (g in st.groups ==> after.groups[g] == st.groups[g])
    && (g in after.managers <==> g in st.managers) && (g in st.managers ==> after.managers[g] == st.managers[g])
    && forall t: Tuple :: t.objId == g ==> multiset(after.tuples)[t] == multiset(st.tuples)[t]
  }

  lemma AddedBeyond(cfg: Config, st: State, caller: Caller, group: string, relation: string, member: string,
                    expires: Option<Instant>, now: Instant, t: Tuple)
    requires !MayEdit(cfg, st, caller, t.objId)
    ensures match AddMember(cfg, st, caller, group, relation, member, expires, now)
            case Ok(after) => multiset(after.tuples)[t] == multiset(st.tuples)[t]
            case Err(_) => true
  {
    if AddMember(cfg, st, caller, group, relation, member, expires, now).Ok? {
      var m := CheckMember(cfg, relation, member, expires, now).value;
      var id := LocalGroup(cfg, st, caller, group).value;
      EditIff(cfg, st, caller, group, id);
      UpsertElsewhere(st.tuples, MakeKey(id, m.relation, m.kind, m.id), Some(cfg.localId), expires, t);
    }
  }

  lemma RemovedBeyond(cfg: Config, st: State, caller: Caller, group: string, relation: string, member: string, t: Tuple)
    requires !MayEdit(cfg, st, caller, t.objId)
    ensures match RemoveMember(cfg, st, caller, group, relation, member)
            case Ok(after) => multiset(after.tuples)[t] == multiset(st.tuples)[t]
            case Err(_) => true
  {
    if RemoveMember(cfg, st, caller, group, relation, member).Ok? {
      var (kind, id) := ParseMemberToken(member).value;
      var g := LocalGroup(cfg, st, caller, group).value;
      EditIff(cfg, st, caller, group, g);
      FilterCounts(st.tuples, NotKey(MakeKey(g, CheckRelation(cfg, relation).value, kind, id)), t);
    }
  }

  lemma ChangedBeyond(cfg: Config, st: State, caller: Caller, group: string, member: string, from: string, to: string,
                      t: Tuple)
    requires !MayEdit(cfg, st, caller, t.objId)
    ensures match ChangeRelation(cfg, st, caller, group, member, from, to)
            case Ok(after) => multiset(after.tuples)[t] == multiset(st.tuples)[t]
            case Err(_) => true
  {
    var after := ChangeRelation(cfg, st, caller, group, member, from, to);
    if after.Ok? && after.value != st {
      var (kind, id) := ParseMemberToken(member).value;
      var g := LocalGroup(cfg, st, caller, group).value;
      EditIff(cfg, st, caller, group, g);
      RerelateElsewhere(st.tuples, MakeKey(g, CheckRelation(cfg, from).value, kind, id), CheckRelation(cfg, to).value,
                        t);
    }
  }

  lemma MembersBeyond(cfg: Config, st: State, ev: Event, now: Instant, t: Tuple)
    requires OnMembers(ev) && !MayEdit(cfg, st, ev.caller, t.objId)
    ensures multiset(Next(cfg, st, ev, now).tuples)[t] == multiset(st.tuples)[t]
  {
    match ev
    case MemberAdded(caller, group, relation, member, expires) =>
      AddedBeyond(cfg, st, caller, group, relation, member, expires, now, t);
    case MemberRemoved(caller, group, relation, member) =>
      RemovedBeyond(cfg, st, caller, group, relation, member, t);
    case RelationChanged(caller, group, member, from, to) =>
      ChangedBeyond(cfg, st, caller, group, member, from, to, t);
  }

  lemma ManagersBeyond(cfg: Config, st: State, caller: Caller, group: string, manager: string, g: string)
    requires !MayEdit(cfg, st, caller, g)
    ensures match AddManager(cfg, st, caller, group, manager)
            case Ok(after) => after == st.(managers := after.managers) && SameGroup(st, after, g)
            case Err(_) => true
  {
    if LocalGroup(cfg, st, caller, group).Ok? {
      EditIff(cfg, st, caller, group, ParseGroupToken(group).value);
    }
  }

  /** Requests on members and managers leave every group alone that their caller may not edit. */
  lemma BeyondRights(cfg: Config, st: State, ev: Event, now: Instant, g: string)
    requires OnMembers(ev) || ev.ManagerAdded?
    requires !MayEdit(cfg, st, ev.caller, g)
    ensures var after := Next(cfg, st, ev, now);
            SameGroup(st, after, g) && after.groups == st.groups && after.sources == st.sources
  {
    if ev.ManagerAdded? {
      ManagersBeyond(cfg, st, ev.caller, ev.group, ev.manager, g);
    } else {
      MembersOnly(cfg, st, ev, now);
      forall t: Tuple | t.objId == g
        ensures multiset(Next(cfg, st, ev, now).tuples)[t] == multiset(st.tuples)[t]
      {
        MembersBeyond(cfg, st, ev, now, t);
      }
    }
  }

  /**
   * Nobody but an admin creates or deletes a group, and who holds none of a group's manager tokens changes nothing of
   * it.
   */
  lemma WithoutRights(cfg: Config, st: State, ev: Event, now: Instant, g: string)
    requires (OnMembers(ev) || OnGroups(ev)) && !ev.caller.admin
    requires g in st.managers ==> forall token :: token in st.managers[g] ==> token !in ev.caller.tokens
    ensures var after := Next(cfg, st, ev, now);
            SameGroup(st, after, g) && after.groups == st.groups && after.sources == st.sources
  {
    if ev.GroupCreated? || ev.GroupDeleted? {
      assert Outcome(cfg, st, ev, now).Err?;
    } else {
      BeyondRights(cfg, st, ev, now, g);
    }
  }
}
