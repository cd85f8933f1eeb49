// What an accepted request does to the rows of the store, column by column, and
// when it is accepted (internal/groupmgmt/service.go:149-680).
module Requests {
  import opened Wrappers
  import opened Sequences
  import opened Text
  import opened Tokens
  import opened Patterns
  import opened Validate
  import opened Tuples
  import opened Resolution
  import opened Graph
  import opened Transitions
  import opened Steps
  import opened Invariants
  import opened EntryLaws
  import opened Expiry
  import opened Rules

  // ── What a request asks for ─────────────────────────────────────────────────

  /** The row is about this group, relation and subject. */
  predicate At(t: Tuple, k: Key) {
    t.objId == k.objId && t.relation == k.relation && t.kind == k.kind && t.subjId == k.subjId && t.subjRel == k.subjRel
  }

  /** The member token names the subject of the key, as the store prints it. */
  predicate AsksFor(memberToken: string, k: Key) {
    match ParseMemberToken(memberToken)
    case Ok((kind, id)) => kind == k.kind && BuildToken(kind, id) == MemberToken(k.kind, k.subjId, k.subjRel)
    case Err(_) => false
  }

  /** The request names this group, this relation and this subject. */
  predicate Asks(cfg: Config, groupToken: string, relation: string, memberToken: string, k: Key) {
    WellFormedKey(k) && ParseGroupToken(groupToken) == Ok(k.objId) && CheckRelation(cfg, relation) == Ok(k.relation)
    && AsksFor(memberToken, k)
  }

  /** However it is spelled: blanks around it, capitals in the id. */
  ghost predicate Spells(token: string, prefix: string, id: string) {
    exists a, core, b :: AllSpaces(a) && AllSpaces(b) && SameLetters(core, id) && token == a + (prefix + core) + b
  }

  lemma SpelledToken(token: string, prefix: string, id: string) returns (core: string)
    requires id != "" && IsLower(id) && Spells(token, prefix, id)
    requires prefix == "" || !IsSpace(prefix[0])
    ensures TrimSpace(token) == prefix + core && NormalizeId(core) == id && SameLetters(core, id)
  {
    var a, c, b :| AllSpaces(a) && AllSpaces(b) && SameLetters(c, id) && token == a + (prefix + c) + b;
    core := c;
    LowerReads(core, id);
    assert core[0] in core && core[|core| - 1] in core;
    assert (prefix + core)[|prefix + core| - 1] == core[|core| - 1];
    assert prefix == "" ==> prefix + core == core;
    TrimBlanks(a, prefix + core, b);
    TrimKeeps(core);
  }

  lemma SpelledGroup(token: string, g: string)
    requires ValidGroupId(g) && Spells(token, GROUP_PREFIX, g)
    ensures ParseGroupToken(token) == Ok(g)
  {
    GroupIdChars(g);
    var core := SpelledToken(token, GROUP_PREFIX, g);
    assert (GROUP_PREFIX + core)[|GROUP_PREFIX|..] == core;
  }

  lemma SpelledMember(token: string, kind: Kind, id: string)
    requires ValidMember(kind, id) && Spells(token, KindPrefix(kind), id)
    ensures ParseMemberToken(token) == Ok((kind, Canonical(kind, id)))
  {
    MemberChars(kind, id);
    var core := SpelledToken(token, KindPrefix(kind), id);
    ParseTokenBuilt(kind, core);
  }

  lemma ConfiguredName(cfg: Config, relation: string, r: string)
    requires ValidConfig(cfg) && r in cfg.relations
    requires TrimSpace(relation) == r || (TrimSpace(relation) == "" && r == MEMBER)
    ensures CheckRelation(cfg, relation) == Ok(r)
  {
  }

  /** The id names the subject: an address, a pattern, or a group with or without a relation behind it. */
  predicate NamesSubject(id: string, k: Key) {
    if k.kind == Subgroup then id == k.subjId + "#" + k.subjRel || (k.subjRel == MEMBER && id == k.subjId)
    else id == k.subjId
  }

  lemma NamedGroup(cfg: Config, id: string, k: Key)
    requires ValidConfig(cfg) && ValidKey(cfg, k) && k.kind == Subgroup && NamesSubject(id, k)
    ensures ValidMember(Subgroup, id) && MemberGroup(id) == (k.subjId, k.subjRel)
  {
    GroupIdChars(k.subjId);
    if id == k.subjId + "#" + k.subjRel {
      assert id[|k.subjId|] == '#';
      forall j | 0 <= j < |k.subjId| ensures id[j] != '#' {
        assert id[j] in k.subjId;
      }
      assert Find(id, '#') == |k.subjId| && id[..|k.subjId|] == k.subjId && id[|k.subjId| + 1..] == k.subjRel;
    } else {
      assert Find(id, '#') == |id| && id[..|id|] == id;
    }
  }

  /** A request in any spelling asks for the group, the relation and the subject it spells. */
  lemma AskedAsSpelled(cfg: Config, groupToken: string, relation: string, memberToken: string, k: Key, id: string)
    requires ValidConfig(cfg) && ValidKey(cfg, k)
    requires Spells(groupToken, GROUP_PREFIX, k.objId)
    requires TrimSpace(relation) == k.relation || (TrimSpace(relation) == "" && k.relation == MEMBER)
    requires NamesSubject(id, k) && Spells(memberToken, KindPrefix(k.kind), id)
    ensures Asks(cfg, groupToken, relation, memberToken, k)
  {
    SpelledGroup(groupToken, k.objId);
    ConfiguredName(cfg, relation, k.relation);
    if k.kind == Subgroup {
      NamedGroup(cfg, id, k);
      GroupIdChars(k.subjId);
    }
    SpelledMember(memberToken, k.kind, id);
  }

  /** What is asked for is the key the store is asked about. */
  lemma AskedKey(cfg: Config, groupToken: string, relation: string, memberToken: string, k: Key)
    requires Asks(cfg, groupToken, relation, memberToken, k)
    ensures var (kind, id) := ParseMemberToken(memberToken).value;
            MakeKey(k.objId, k.relation, kind, id) == k
            && (k.kind == Subgroup ==> MemberGroup(id) == (k.subjId, k.subjRel))
  {
    var (kind, id) := ParseMemberToken(memberToken).value;
    var prefix := KindPrefix(k.kind);
    assert BuildToken(kind, id)[|prefix|..] == id;
    if k.kind == Subgroup {
      assert MemberToken(k.kind, k.subjId, k.subjRel)[|prefix|..] == JoinGroupRelation(k.subjId, k.subjRel);
      SplitJoin(k.subjId, k.subjRel);
    } else {
      assert MemberToken(k.kind, k.subjId, k.subjRel)[|prefix|..] == k.subjId;
    }
  }

  /** A relation behind a valid member id is configured as it stands or refused. */
  lemma CheckedName(cfg: Config, id: string, relation: string)
    requires ValidConfig(cfg) && ValidMember(Subgroup, id) && MemberGroup(id).1 == relation
    ensures CheckRelation(cfg, relation) == if relation in cfg.relations then Ok(relation) else Err(InvalidRelation)
  {
    if relation != MEMBER {
      assert ValidRelationName(relation);
    }
    assert relation[0] in relation && relation[|relation| - 1] in relation;
    TrimKeeps(relation);
  }

  // ── AddMember ───────────────────────────────────────────────────────────────

  /** The caller is an admin or holds one of the group's manager tokens, and the group is maintained here. */
  ghost predicate MayEdit(cfg: Config, st: State, caller: Caller, id: string) {
    id in st.groups && st.groups[id].sourceId == Some(cfg.localId)
    && (caller.admin || (id in st.managers && exists token :: token in st.managers[id] && token in caller.tokens))
  }

  /** A row in force enters the one group in the other. */
  ghost predicate Enters(ts: seq<Tuple>, now: Instant, parent: string, child: string) {
    exists t ::
      t in ts && (t.expires == None || now < t.expires.value)
      && t.kind == Subgroup && t.objId == parent && t.subjId == child
  }

  /** Groups each of which is entered in the one before. */
  ghost predicate IsNested(ts: seq<Tuple>, now: Instant, p: seq<string>) {
    p != [] && forall i :: 0 <= i < |p| - 1 ==> Enters(ts, now, p[i], p[i + 1])
  }

  /** The subject is a group that is the group asked about, or holds it. */
  ghost predicate WouldNest(ts: seq<Tuple>, now: Instant, k: Key) {
    k.kind == Subgroup && exists p :: IsNested(ts, now, p) && p[0] == k.subjId && p[|p| - 1] == k.objId
  }

  lemma EntersIsEdge(ts: seq<Tuple>, now: Instant, parent: string, child: string)
    ensures Enters(ts, now, parent, child) <==> Edge(parent, child) in Edges(LiveTuples(ts, now))
  {
    if Enters(ts, now, parent, child) {
      var t :| t in ts && (t.expires == None || now < t.expires.value)
               && t.kind == Subgroup && t.objId == parent && t.subjId == child;
      assert t in LiveTuples(ts, now) && EdgeOf(t) == Edge(parent, child);
    }
  }

  lemma NestedIsPath(ts: seq<Tuple>, now: Instant, p: seq<string>)
    ensures IsNested(ts, now, p) <==> IsPath(Edges(LiveTuples(ts, now)), p)
  {
    forall i | 0 <= i < |p| - 1
      ensures Enters(ts, now, p[i], p[i + 1]) <==> Edge(p[i], p[i + 1]) in Edges(LiveTuples(ts, now))
    {
      EntersIsEdge(ts, now, p[i], p[i + 1]);
    }
  }

  lemma NestsIffCycle(st: State, now: Instant, k: Key)
    ensures WouldNest(st.tuples, now, k) <==> k.kind == Subgroup && MakesCycle(st, now, k.objId, k.subjId)
  {
    forall p ensures IsNested(st.tuples, now, p) <==> IsPath(Edges(LiveTuples(st.tuples, now)), p) {
      NestedIsPath(st.tuples, now, p);
    }
    if k.kind == Subgroup && MakesCycle(st, now, k.objId, k.subjId) {
      var p :| Connects(Edges(LiveTuples(st.tuples, now)), p, k.subjId, k.objId);
      assert IsNested(st.tuples, now, p);
    }
    if WouldNest(st.tuples, now, k) {
      var p :| IsNested(st.tuples, now, p) && p[0] == k.subjId && p[|p| - 1] == k.objId;
      assert Connects(Edges(LiveTuples(st.tuples, now)), p, k.subjId, k.objId);
    }
  }

  /** The rows with one more: a row already there gets the new end and stays as it is, a new one comes last. */
  ghost predicate IsWritten(ts: seq<Tuple>, ts': seq<Tuple>, k: Key, source: Option<SourceId>,
                            expires: Option<Instant>) {
    (exists i :: 0 <= i < |ts| && At(ts[i], k) && ts' == ts[i := ts[i].(expires := expires)])
    || ((forall t :: t in ts ==> !At(t, k))
        && ts' == ts + [Tuple(k.objId, k.relation, k.kind, k.subjId, k.subjRel, source, expires)])
  }

  lemma UpsertWrites(ts: seq<Tuple>, k: Key, source: Option<SourceId>, expires: Option<Instant>)
    ensures IsWritten(ts, Upsert(ts, k, source, expires), k, source, expires)
  {
    var i := IndexOf(ts, k);
    if i < |ts| {
      assert At(ts[i], k);
    } else {
      forall t | t in ts ensures !At(t, k) {
        var j :| 0 <= j < |ts| && ts[j] == t;
      }
    }
  }

  /** The guard of every change to a group. */
  lemma EditIff(cfg: Config, st: State, caller: Caller, groupToken: string, id: string)
    requires ParseGroupToken(groupToken) == Ok(id)
    ensures LocalGroup(cfg, st, caller, groupToken).Ok? <==> MayEdit(cfg, st, caller, id)
    ensures LocalGroup(cfg, st, caller, groupToken).Ok? ==> LocalGroup(cfg, st, caller, groupToken).value == id
  {
  }

  /** The checks on what is asked for leave only the end to be refused. */
  lemma AskedMember(cfg: Config, groupToken: string, relation: string, memberToken: string, expires: Option<Instant>,
                    now: Instant, k: Key)
    requires ValidConfig(cfg) && Asks(cfg, groupToken, relation, memberToken, k)
    requires k.kind == Subgroup ==> k.subjRel in cfg.relations
    ensures CheckMember(cfg, relation, memberToken, expires, now)
         == if expires.Some? && now >= expires.value then Err(InvalidExpiry)
            else Ok(Member(k.relation, k.kind, ParseMemberToken(memberToken).value.1))
  {
    AskedKey(cfg, groupToken, relation, memberToken, k);
    if k.kind == Subgroup {
      ConfiguredRelation(cfg, k.subjRel);
      CheckedMember(cfg, relation, memberToken, expires, now, k.relation, k.subjRel);
    }
  }

  lemma CheckedMember(cfg: Config, relation: string, memberToken: string, expires: Option<Instant>, now: Instant,
                      rel: string, memberRel: string)
    requires CheckRelation(cfg, relation) == Ok(rel) && CheckRelation(cfg, memberRel).Ok?
    requires ParseMemberToken(memberToken).Ok? && MemberGroup(ParseMemberToken(memberToken).value.1).1 == memberRel
    ensures var (kind, id) := ParseMemberToken(memberToken).value;
            CheckMember(cfg, relation, memberToken, expires, now)
            == if expires.Some? && now >= expires.value then Err(InvalidExpiry) else Ok(Member(rel, kind, id))
  {
  }

  /**
   * Adding a member is accepted exactly from someone who may edit the group, with an end still to come and no group put
   * into itself; then the row asked for is there with the end asked for, under its relation.
   */
  lemma AddedRow(cfg: Config, st: State, caller: Caller, groupToken: string, relation: string, memberToken: string,
                 expires: Option<Instant>, now: Instant, k: Key)
    requires ValidConfig(cfg) && Asks(cfg, groupToken, relation, memberToken, k)
    requires k.kind == Subgroup ==> k.subjRel in cfg.relations
    ensures var after := AddMember(cfg, st, caller, groupToken, relation, memberToken, expires, now);
            (after.Ok? <==> MayEdit(cfg, st, caller, k.objId) && (expires.Some? ==> now < expires.value)
                            && !WouldNest(st.tuples, now, k))
            && (after.Ok? ==>
                  after.value == st.(tuples := after.value.tuples)
                  && IsWritten(st.tuples, after.value.tuples, k, Some(cfg.localId), expires))
  {
    AskedKey(cfg, groupToken, relation, memberToken, k);
    AskedMember(cfg, groupToken, relation, memberToken, expires, now, k);
    EditIff(cfg, st, caller, groupToken, k.objId);
    NestsIffCycle(st, now, k);
    UpsertWrites(st.tuples, k, Some(cfg.localId), expires);
  }

  /** Whoever the row's subject is true of has the relation asked for, until its end, and is answered its token. */
  lemma AddedHolds(cfg: Config, st: State, after: State, caller: Caller, groupToken: string, relation: string,
                   memberToken: string, expires: Option<Instant>, now: Instant, k: Key, later: Instant,
                   email: string, n: nat)
    requires ValidConfig(cfg) && Asks(cfg, groupToken, relation, memberToken, k)
    requires k.kind == Subgroup ==> k.subjRel in cfg.relations
    requires AddMember(cfg, st, caller, groupToken, relation, memberToken, expires, now) == Ok(after)
    requires expires.Some? ==> later < expires.value
    requires SubjectHolds(after.tuples, later, email, k, n)
    ensures Has(after.tuples, later, email, k.objId, k.relation, n)
    ensures AnsweredTo(after.tuples, later, email, GROUP_PREFIX + k.objId)
    ensures AnsweredTo(after.tuples, later, email, GroupToken(k.objId, k.relation))
  {
    AddedRow(cfg, st, caller, groupToken, relation, memberToken, expires, now, k);
    var t := WrittenRow(st.tuples, after.tuples, k, Some(cfg.localId), expires);
    RowHolds(after.tuples, later, email, t, k, n);
  }

  /** The person is the subject, fits it, or is in it. */
  ghost predicate SubjectHolds(ts: seq<Tuple>, now: Instant, email: string, k: Key, n: nat) {
    match k.kind
    case User => email == k.subjId
    case Pattern => GlobMatches(k.subjId, email)
    case Subgroup => n > 0 && IsIn(ts, now, email, k.subjId, k.subjRel, n - 1)
  }

  lemma WrittenRow(ts: seq<Tuple>, ts': seq<Tuple>, k: Key, source: Option<SourceId>, expires: Option<Instant>)
    returns (t: Tuple)
    requires IsWritten(ts, ts', k, source, expires)
    ensures t in ts' && At(t, k) && t.expires == expires
  {
    if i :| 0 <= i < |ts| && At(ts[i], k) && ts' == ts[i := ts[i].(expires := expires)] {
      t := ts'[i];
    } else {
      t := ts'[|ts|];
    }
  }

  lemma RowHolds(ts: seq<Tuple>, now: Instant, email: string, t: Tuple, k: Key, n: nat)
    requires t in ts && At(t, k) && InForce(t, now) && SubjectHolds(ts, now, email, k, n)
    requires k.relation != ""
    ensures Has(ts, now, email, k.objId, k.relation, n)
    ensures AnsweredTo(ts, now, email, GROUP_PREFIX + k.objId)
    ensures AnsweredTo(ts, now, email, GroupToken(k.objId, k.relation))
  {
    assert Grants(ts, now, email, t, n);
    assert Has(ts, now, email, k.objId, k.relation, n);
  }

  // ── RemoveMember ────────────────────────────────────────────────────────────

  lemma SameKeyAt(t: Tuple, k: Key)
    ensures At(t, k) <==> KeyOf(t) == k
  {
  }

  /**
   * Removing a member is accepted exactly from someone who may edit the group, and takes the row asked for, no other.
   */
  lemma RemovedRow(cfg: Config, st: State, caller: Caller, groupToken: string, relation: string, memberToken: string,
                   k: Key)
    returns (at: seq<nat>)
    requires Asks(cfg, groupToken, relation, memberToken, k)
    ensures var after := RemoveMember(cfg, st, caller, groupToken, relation, memberToken);
            (after.Ok? <==> MayEdit(cfg, st, caller, k.objId))
            && (after.Ok? ==>
                  after.value == st.(tuples := after.value.tuples)
                  && PicksOut(at, st.tuples, after.value.tuples)
                  && forall i: nat :: i < |st.tuples| ==> (i in at <==> !At(st.tuples[i], k)))
  {
    AskedKey(cfg, groupToken, relation, memberToken, k);
    EditIff(cfg, st, caller, groupToken, k.objId);
    at := FilterPicks(st.tuples, NotKey(k));
    forall i: nat | i < |st.tuples| ensures i in at <==> !At(st.tuples[i], k) {
      SameKeyAt(st.tuples[i], k);
    }
  }

  /** From its end on, an added row leaves everyone, every group and the group graph as if it had been removed. */
  lemma AddedEnds(cfg: Config, st: State, caller: Caller, groupToken: string, relation: string, memberToken: string,
                  end: Instant, now: Instant, k: Key, later: Instant, email: string, p: Pair)
    requires ValidConfig(cfg) && UniqueKeys(st.tuples) && Asks(cfg, groupToken, relation, memberToken, k)
    requires k.kind == Subgroup ==> k.subjRel in cfg.relations
    requires AddMember(cfg, st, caller, groupToken, relation, memberToken, Some(end), now).Ok? && later >= end
    ensures RemoveMember(cfg, st, caller, groupToken, relation, memberToken).Ok?
    ensures var added := AddMember(cfg, st, caller, groupToken, relation, memberToken, Some(end), now).value.tuples;
            var removed := RemoveMember(cfg, st, caller, groupToken, relation, memberToken).value.tuples;
            Held(LiveTuples(added, later), email) == Held(LiveTuples(removed, later), email)
            && MemberTokens(LiveTuples(added, later), p) == MemberTokens(LiveTuples(removed, later), p)
            && Edges(LiveTuples(added, later)) == Edges(LiveTuples(removed, later))
  {
    AskedKey(cfg, groupToken, relation, memberToken, k);
    AskedMember(cfg, groupToken, relation, memberToken, Some(end), now, k);
    EditIff(cfg, st, caller, groupToken, k.objId);
    EndsOnTime(st.tuples, k, Some(cfg.localId), end, later, email, p);
  }

  // ── ChangeRelation ──────────────────────────────────────────────────────────

  /** The longer of two validities, where no end is the longest. */
  function LongerEnd(a: Option<Instant>, b: Option<Instant>): Option<Instant> {
    match (a, b)
    case (Some(x), Some(y)) => Some(if x < y then y else x)
    case _ => None
  }

  /**
   * The row at one relation is the row at another: moved in its place, or, where one was already there, taken away and
   * that one left with the longer end.
   */
  ghost predicate IsMoved(ts: seq<Tuple>, ts': seq<Tuple>, k: Key, to: string) {
    exists i ::
      0 <= i < |ts| && At(ts[i], k)
      && (((forall t :: t in ts ==> !At(t, k.(relation := to))) && ts' == ts[i := ts[i].(relation := to)])
          || exists j ::
               0 <= j < |ts| && At(ts[j], k.(relation := to))
               && var kept := ts[j].(expires := LongerEnd(ts[i].expires, ts[j].expires));
                  ts' == ts[j := kept][..i] + ts[j := kept][i + 1..])
  }

  lemma FirstAt(ts: seq<Tuple>, k: Key)
    ensures IndexOf(ts, k) < |ts| ==> At(ts[IndexOf(ts, k)], k)
    ensures IndexOf(ts, k) == |ts| <==> forall t :: t in ts ==> !At(t, k)
  {
    var i := IndexOf(ts, k);
    if i < |ts| {
      assert ts[i] in ts;
    }
    forall t | t in ts && At(t, k) ensures i < |ts| {
      var n :| 0 <= n < |ts| && ts[n] == t;
    }
  }

  lemma RerelateMoves(ts: seq<Tuple>, k: Key, to: string)
    requires k.relation != to
    ensures (forall t :: t in ts ==> !At(t, k)) ==> Rerelate(ts, k, to) == Err(NotFound)
    ensures (exists t :: t in ts && At(t, k)) ==>
              Rerelate(ts, k, to).Ok? && IsMoved(ts, Rerelate(ts, k, to).value, k, to)
  {
    var k' := k.(relation := to);
    var i, j := IndexOf(ts, k), IndexOf(ts, k');
    FirstAt(ts, k);
    FirstAt(ts, k');
    if i < |ts| && j < |ts| {
      var longer := LaterExpiry(ts[i].expires, ts[j].expires);
      assert longer == LongerEnd(ts[i].expires, ts[j].expires);
      var kept := ts[j].(expires := longer);
      assert Rerelate(ts, k, to).value == ts[j := kept][..i] + ts[j := kept][i + 1..];
    }
  }

  /**
   * Changing a relation is accepted exactly from someone who may edit the group, if there is a row at the old relation;
   * without one it is not found. The row at the old relation then is the one at the new.
   */
  lemma ChangedRow(cfg: Config, st: State, caller: Caller, groupToken: string, memberToken: string,
                   fromRelation: string, toRelation: string, k: Key, to: string)
    requires Asks(cfg, groupToken, fromRelation, memberToken, k) && CheckRelation(cfg, toRelation) == Ok(to)
    ensures var after := ChangeRelation(cfg, st, caller, groupToken, memberToken, fromRelation, toRelation);
            var stored := exists t :: t in st.tuples && At(t, k);
            (after.Ok? <==> MayEdit(cfg, st, caller, k.objId) && (k.relation == to || stored))
            && (MayEdit(cfg, st, caller, k.objId) && k.relation != to ==> (after == Err(NotFound) <==> !stored))
            && (after.Ok? && k.relation == to ==> after.value == st)
            && (after.Ok? && k.relation != to ==>
                  after.value == st.(tuples := after.value.tuples) && IsMoved(st.tuples, after.value.tuples, k, to))
  {
    AskedKey(cfg, groupToken, fromRelation, memberToken, k);
    EditIff(cfg, st, caller, groupToken, k.objId);
    if k.relation != to {
      RerelateMoves(st.tuples, k, to);
    }
  }

  lemma StoredEntry(ts: seq<Tuple>, t: Tuple)
    requires UniqueKeys(ts)
    ensures t in ts <==> EntryAt(ts, KeyOf(t)) == Some(t)
  {
    if i :| 0 <= i < |ts| && ts[i] == t {
      IndexOfKey(ts, i);
    }
  }

  /**
   * Where keys are unique, nothing is left at the old relation, one row is at the new one, in force whenever one of the
   * two would have been, and every other row stays.
   */
  lemma ChangedRows(cfg: Config, st: State, after: State, caller: Caller, groupToken: string, memberToken: string,
                    fromRelation: string, toRelation: string, k: Key, to: string) returns (kept: Tuple)
    requires UniqueKeys(st.tuples)
    requires Asks(cfg, groupToken, fromRelation, memberToken, k) && CheckRelation(cfg, toRelation) == Ok(to)
    requires ChangeRelation(cfg, st, caller, groupToken, memberToken, fromRelation, toRelation) == Ok(after)
    requires k.relation != to
    ensures UniqueKeys(after.tuples) && forall t :: t in after.tuples ==> !At(t, k)
    ensures At(kept, k.(relation := to)) && kept in after.tuples
    ensures forall t :: t in after.tuples && At(t, k.(relation := to)) ==> t == kept
    ensures forall now ::
              InForce(kept, now)
              <==> exists t :: t in st.tuples && (At(t, k) || At(t, k.(relation := to))) && InForce(t, now)
    ensures forall t :: !At(t, k) && !At(t, k.(relation := to)) ==> (t in after.tuples <==> t in st.tuples)
  {
    var ts, ts', k' := st.tuples, after.tuples, k.(relation := to);
    ChangedRow(cfg, st, caller, groupToken, memberToken, fromRelation, toRelation, k, to);
    AskedKey(cfg, groupToken, fromRelation, memberToken, k);
    EditIff(cfg, st, caller, groupToken, k.objId);
    assert Rerelate(ts, k, to) == Ok(ts');
    kept := MovedRows(ts, ts', k, to);
  }

  /** And whoever its subject is true of then has the new relation. */
  lemma ChangedHolds(cfg: Config, st: State, after: State, caller: Caller, groupToken: string, memberToken: string,
                     fromRelation: string, toRelation: string, k: Key, to: string, now: Instant, email: string, n: nat)
    requires UniqueKeys(st.tuples)
    requires Asks(cfg, groupToken, fromRelation, memberToken, k) && CheckRelation(cfg, toRelation) == Ok(to)
    requires ChangeRelation(cfg, st, caller, groupToken, memberToken, fromRelation, toRelation) == Ok(after)
    requires k.relation != to && to != ""
    requires exists t :: t in st.tuples && (At(t, k) || At(t, k.(relation := to))) && InForce(t, now)
    requires SubjectHolds(after.tuples, now, email, k, n)
    ensures Has(after.tuples, now, email, k.objId, to, n)
    ensures AnsweredTo(after.tuples, now, email, GroupToken(k.objId, to))
  {
    var kept := ChangedRows(cfg, st, after, caller, groupToken, memberToken, fromRelation, toRelation, k, to);
    RowHolds(after.tuples, now, email, kept, k.(relation := to), n);
  }

  lemma MovedRows(ts: seq<Tuple>, ts': seq<Tuple>, k: Key, to: string) returns (kept: Tuple)
    requires UniqueKeys(ts) && Rerelate(ts, k, to) == Ok(ts') && k.relation != to
    ensures UniqueKeys(ts') && forall t :: t in ts' ==> !At(t, k)
    ensures At(kept, k.(relation := to)) && kept in ts'
    ensures forall t :: t in ts' && At(t, k.(relation := to)) ==> t == kept
    ensures forall now ::
              InForce(kept, now)
              <==> exists t :: t in ts && (At(t, k) || At(t, k.(relation := to))) && InForce(t, now)
    ensures forall t :: !At(t, k) && !At(t, k.(relation := to)) ==> (t in ts' <==> t in ts)
  {
    var k' := k.(relation := to);
    ChangedEntry(ts, k, to, k);
    kept := ChangedTo(ts, k, to);
    forall t ensures t in ts' <==> EntryAt(ts', KeyOf(t)) == Some(t) {
      StoredEntry(ts', t);
    }
    forall t ensures t in ts <==> EntryAt(ts, KeyOf(t)) == Some(t) {
      StoredEntry(ts, t);
    }
    forall other
      ensures EntryAt(ts', other)
           == if other == k then None else if other == k' then Some(kept) else EntryAt(ts, other)
    {
      ChangedEntry(ts, k, to, other);
    }
    forall now ensures InForce(kept, now) <==> exists t :: t in ts && (At(t, k) || At(t, k')) && InForce(t, now) {
      KeptLife(ts, k, to, now);
    }
  }

  lemma KeptLife(ts: seq<Tuple>, k: Key, to: string, now: Instant)
    requires UniqueKeys(ts) && EntryAt(ts, k).Some? && k.relation != to
    ensures InForce(ChangedTo(ts, k, to), now)
            <==> exists t :: t in ts && (At(t, k) || At(t, k.(relation := to))) && InForce(t, now)
  {
    var k' := k.(relation := to);
    var from, target := EntryAt(ts, k).value, EntryAt(ts, k');
    StoredEntry(ts, from);
    assert At(from, k);
    if target.Some? {
      StoredEntry(ts, target.value);
      assert At(target.value, k');
    }
    if t :| t in ts && (At(t, k) || At(t, k')) && InForce(t, now) {
      StoredEntry(ts, t);
      assert t == from || target == Some(t);
    }
  }
}
