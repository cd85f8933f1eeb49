// What the service, the sync engine and the source administration do as one
// serial step each: the guards they check and the store operation behind them
// (internal/groupmgmt/service.go, internal/sync/engine.go, internal/app.go:286-308,
// internal/webserver/api_sync.go).
module Steps {
  import opened Wrappers
  import opened Text
  import opened Tokens
  import opened Patterns
  import opened Validate
  import opened Tuples
  import opened Graph
  import opened Transitions

  /** The local source and the relations a group can carry. */
  datatype Config = Config(localId: SourceId, relations: set<string>)

  predicate ValidConfig(cfg: Config) {
    MEMBER in cfg.relations && forall r :: r in cfg.relations ==> ValidRelationName(r)
  }

  datatype Caller = Caller(admin: bool, tokens: seq<string>)

  // ── Guards ──────────────────────────────────────────────────────────────────

  function CheckRelation(cfg: Config, relation: string): Result<string> {
    var r := NormalizeRelation(TrimSpace(relation));
    if r in cfg.relations then Ok(r) else Err(InvalidRelation)
  }

  ghost predicate MayManage(st: State, caller: Caller, id: string) {
    caller.admin || exists token :: token in ManagersOf(st.managers, id) && token in caller.tokens
  }

  /** A group of the local source the caller may maintain. */
  ghost function LocalGroup(cfg: Config, st: State, caller: Caller, token: string): Result<string> {
    var id :- ParseGroupToken(token);
    if id !in st.groups then Err(NotFound)
    else if st.groups[id].sourceId != Some(cfg.localId) then Err(OwnedBySource)
    else if !MayManage(st, caller, id) then Err(Forbidden)
    else Ok(id)
  }

  /** Some source other than this one has reserved the id. */
  ghost predicate ReservedByOther(st: State, sourceId: SourceId, id: string) {
    exists s, glob :: s in st.sources && s != sourceId && glob in st.sources[s].reserved && GlobMatches(glob, id)
  }

  /** The source may write members into the group: its own or a new one, and nobody else's reserved name. */
  ghost predicate MayWrite(st: State, sourceId: SourceId, id: string) {
    (id in st.groups ==> st.groups[id].sourceId == Some(sourceId)) && !ReservedByOther(st, sourceId, id)
  }

  /** Reserved names that match a group somebody else already has. */
  ghost predicate ReservationTaken(st: State, owner: Option<SourceId>, reserved: seq<string>) {
    exists id, glob :: id in st.groups && (owner == None || st.groups[id].sourceId != owner)
                       && glob in reserved && GlobMatches(glob, id)
  }

  function CheckManagerToken(cfg: Config, st: State, token: string): Result<string> {
    var (kind, id) :- ParseMemberToken(token);
    match kind
    case User => Ok(BuildToken(User, id))
    case Pattern => Err(InvalidId)
    case Subgroup =>
      var (group, relation) := SplitGroupRelation(id);
      if !ValidGroupId(group) then Err(InvalidId)
      else
        var rel :- CheckRelation(cfg, relation);
        if group !in st.groups then Err(NotFound) else Ok(GroupToken(group, rel))
  }

  function CheckManagerTokens(cfg: Config, st: State, tokens: seq<string>): Result<seq<string>> {
    if tokens == [] then Ok([])
    else
      var init :- CheckManagerTokens(cfg, st, tokens[..|tokens| - 1]);
      var last :- CheckManagerToken(cfg, st, tokens[|tokens| - 1]);
      Ok(init + [last])
  }

  function WithManagers(managers: map<string, seq<string>>, id: string, tokens: seq<string>): map<string, seq<string>> {
    if tokens == [] then managers
    else WithManager(WithManagers(managers, id, tokens[..|tokens| - 1]), id, tokens[|tokens| - 1])
  }

  // ── Groups and members ──────────────────────────────────────────────────────

  ghost function CreateGroup(cfg: Config, st: State, caller: Caller, rawId: string, displayName: string,
                             description: string, managers: seq<string>): Result<State> {
    if !caller.admin then Err(Forbidden)
    else
      var id := NormalizeId(TrimPrefix(TrimSpace(rawId), GROUP_PREFIX));
      if !ValidGroupId(id) then Err(InvalidId)
      else if ReservedByOther(st, cfg.localId, id) then Err(Reserved)
      else
        var tokens :- CheckManagerTokens(cfg, st, managers);
        if id in st.groups then Err(AlreadyExists)
        else
          var name := if TrimSpace(displayName) == "" then id else displayName;
          Ok(st.(groups := st.groups[id := Group(name, description, Some(cfg.localId))],
                 managers := WithManagers(st.managers, id, tokens)))
  }

  ghost function DeleteGroup(cfg: Config, st: State, caller: Caller, groupToken: string): Result<State> {
    var id :- LocalGroup(cfg, st, caller, groupToken);
    if !caller.admin then Err(Forbidden) else Ok(WithoutGroup(st, id))
  }

  /** The entry added would make the group contain itself. */
  ghost predicate MakesCycle(st: State, now: Instant, groupId: string, child: string) {
    Encloses(Edges(LiveTuples(st.tuples, now)), child, groupId)
  }

  /** A member as AddMember is given it, checked: the relation, the kind and the id. */
  datatype Member = Member(relation: string, kind: Kind, id: string)

  function CheckMember(cfg: Config, relation: string, memberToken: string, expires: Option<Instant>,
                       now: Instant): Result<Member> {
    var rel :- CheckRelation(cfg, relation);
    var (kind, memberId) :- ParseMemberToken(memberToken);
    var memberRel := MemberGroup(memberId).1;
    if kind == Subgroup && memberRel != MEMBER && CheckRelation(cfg, memberRel).Err? then Err(InvalidRelation)
    else if expires != None && expires.value <= now then Err(InvalidExpiry)
    else Ok(Member(rel, kind, memberId))
  }

  ghost function AddMember(cfg: Config, st: State, caller: Caller, groupToken: string, relation: string,
                           memberToken: string, expires: Option<Instant>, now: Instant): Result<State> {
    var m :- CheckMember(cfg, relation, memberToken, expires, now);
    var id :- LocalGroup(cfg, st, caller, groupToken);
    if m.kind == Subgroup && MakesCycle(st, now, id, MemberGroup(m.id).0) then Err(Cycle)
    else Ok(st.(tuples := Upsert(st.tuples, MakeKey(id, m.relation, m.kind, m.id), Some(cfg.localId), expires)))
  }

  ghost function RemoveMember(cfg: Config, st: State, caller: Caller, groupToken: string, relation: string,
                              memberToken: string): Result<State> {
    var rel :- CheckRelation(cfg, relation);
    var (kind, memberId) :- ParseMemberToken(memberToken);
    var id :- LocalGroup(cfg, st, caller, groupToken);
    Ok(st.(tuples := WithoutKey(st.tuples, MakeKey(id, rel, kind, memberId))))
  }

  ghost function ChangeRelation(cfg: Config, st: State, caller: Caller, groupToken: string, memberToken: string,
                                fromRelation: string, toRelation: string): Result<State> {
    var from :- CheckRelation(cfg, fromRelation);
    var to :- CheckRelation(cfg, toRelation);
    var (kind, memberId) :- ParseMemberToken(memberToken);
    var id :- LocalGroup(cfg, st, caller, groupToken);
    if from == to then Ok(st)
    else
      var tuples :- Rerelate(st.tuples, MakeKey(id, from, kind, memberId), to);
      Ok(st.(tuples := tuples))
  }

  ghost function AddManager(cfg: Config, st: State, caller: Caller, groupToken: string,
                            managerToken: string): Result<State> {
    var id :- LocalGroup(cfg, st, caller, groupToken);
    var token :- CheckManagerToken(cfg, st, managerToken);
    Ok(st.(managers := WithManager(st.managers, id, token)))
  }

  // ── Syncs ───────────────────────────────────────────────────────────────────

  /** What the importers hand over: rows with valid, normalized ids. */
  predicate ValidPair(p: TuplePair) {
    ValidGroupId(p.groupId) && ValidMember(p.kind, p.memberId)
  }

  function NormalizedPair(p: TuplePair): TuplePair {
    p.(groupId := NormalizeId(p.groupId), memberId := NormalizeId(p.memberId))
  }

  /** A row with its relations checked; an unknown one refuses the whole import. */
  function CheckedPair(cfg: Config, p: TuplePair): Result<TuplePair> {
    var rel :- CheckRelation(cfg, p.relation);
    if p.kind != Subgroup then Ok(p.(relation := rel))
    else
      var (group, memberRel) := MemberGroup(p.memberId);
      var checked :- CheckRelation(cfg, memberRel);
      Ok(p.(relation := rel, memberId := JoinGroupRelation(group, checked)))
  }

  function PreparedPair(cfg: Config, p: TuplePair): Result<TuplePair> {
    CheckedPair(cfg, NormalizedPair(p))
  }

  function PreparedPairs(cfg: Config, pairs: seq<TuplePair>): Result<seq<TuplePair>> {
    if pairs == [] then Ok([])
    else
      var init :- PreparedPairs(cfg, pairs[..|pairs| - 1]);
      var last :- PreparedPair(cfg, pairs[|pairs| - 1]);
      Ok(init + [last])
  }

  ghost function RunSync(cfg: Config, st: State, sourceId: SourceId, pairs: seq<TuplePair>,
                         descriptions: map<string, string>): Result<State> {
    if sourceId !in st.sources then Err(NotFound)
    else if st.sources[sourceId].typ == Local then Err(LocalSource)
    else if !(forall p :: p in pairs ==> ValidPair(p)) || PreparedPairs(cfg, pairs).Err? then Err(ImportRefused)
    else
      var prepared := PreparedPairs(cfg, pairs).value;
      if !(forall id :: id in ImportGroups(prepared) ==> MayWrite(st, sourceId, id)) then Err(ImportRefused)
      else Ok(Replaced(st, sourceId, prepared, descriptions))
  }

  // ── Sources ─────────────────────────────────────────────────────────────────

  ghost function CreateSource(st: State, sourceId: SourceId, source: Source): Result<State> {
    if sourceId in st.sources then Err(AlreadyExists)
    else if source.typ != Csv && source.typ != Ldif then Err(InvalidId)
    else if ReservationTaken(st, None, source.reserved) then Err(ReservationConflict)
    else Ok(st.(sources := st.sources[sourceId := source]))
  }

  ghost function UpdateSource(st: State, sourceId: SourceId, name: string, reserved: seq<string>): Result<State> {
    if sourceId !in st.sources then Err(NotFound)
    else if st.sources[sourceId].typ == Local then Err(LocalSource)
    else if ReservationTaken(st, Some(sourceId), reserved) then Err(ReservationConflict)
    else Ok(st.(sources := st.sources[sourceId := st.sources[sourceId].(name := name, reserved := reserved)]))
  }

  /** The source goes with its tuples; its groups pass to the local source. */
  ghost function DeleteSource(cfg: Config, st: State, sourceId: SourceId): Result<State> {
    if sourceId !in st.sources then Err(NotFound)
    else if st.sources[sourceId].typ == Local then Err(LocalSource)
    else Ok(Moved(WithoutSource(st, sourceId), None, cfg.localId))
  }

  /** Everything of the source passes to the local source, then the source is deleted. */
  ghost function AdoptSource(cfg: Config, st: State, sourceId: SourceId): Result<State> {
    if sourceId !in st.sources then Err(NotFound)
    else if st.sources[sourceId].typ != Csv && st.sources[sourceId].typ != Ldif then Err(InvalidId)
    else Ok(WithoutSource(Moved(st, Some(sourceId), cfg.localId), sourceId))
  }

  // ── Runs ────────────────────────────────────────────────────────────────────

  datatype Event =
    | GroupCreated(caller: Caller, id: string, displayName: string, description: string, managerTokens: seq<string>)
    | GroupDeleted(caller: Caller, group: string)
    | MemberAdded(caller: Caller, group: string, relation: string, member: string, expires: Option<Instant>)
    | MemberRemoved(caller: Caller, group: string, relation: string, member: string)
    | RelationChanged(caller: Caller, group: string, member: string, fromRelation: string, toRelation: string)
    | ManagerAdded(caller: Caller, group: string, manager: string)
    | Synced(sourceId: SourceId, pairs: seq<TuplePair>, descriptions: map<string, string>)
    | SourceCreated(sourceId: SourceId, source: Source)
    | SourceUpdated(sourceId: SourceId, name: string, reserved: seq<string>)
    | SourceDeleted(sourceId: SourceId)
    | SourceAdopted(sourceId: SourceId)
    | OrphansAdopted

  ghost function Outcome(cfg: Config, st: State, ev: Event, now: Instant): Result<State> {
    match ev
    case GroupCreated(caller, id, name, description, managers) =>
      CreateGroup(cfg, st, caller, id, name, description, managers)
    case GroupDeleted(caller, group) => DeleteGroup(cfg, st, caller, group)
    case MemberAdded(caller, group, relation, member, expires) =>
      AddMember(cfg, st, caller, group, relation, member, expires, now)
    case MemberRemoved(caller, group, relation, member) => RemoveMember(cfg, st, caller, group, relation, member)
    case RelationChanged(caller, group, member, from, to) => ChangeRelation(cfg, st, caller, group, member, from, to)
    case ManagerAdded(caller, group, manager) => AddManager(cfg, st, caller, group, manager)
    case Synced(sourceId, pairs, descriptions) => RunSync(cfg, st, sourceId, pairs, descriptions)
    case SourceCreated(sourceId, source) => CreateSource(st, sourceId, source)
    case SourceUpdated(sourceId, name, reserved) => UpdateSource(st, sourceId, name, reserved)
    case SourceDeleted(sourceId) => DeleteSource(cfg, st, sourceId)
    case SourceAdopted(sourceId) => AdoptSource(cfg, st, sourceId)
    case OrphansAdopted => Ok(Moved(st, None, cfg.localId))
  }

  /** A refused step changes nothing. */
  ghost function Next(cfg: Config, st: State, ev: Event, now: Instant): State {
    match Outcome(cfg, st, ev, now)
    case Ok(after) => after
    case Err(_) => st
  }

  datatype Moment = Moment(now: Instant, ev: Event)

  ghost function Run(cfg: Config, st: State, run: seq<Moment>): State {
    if run == [] then st
    else
      var last := run[|run| - 1];
      Next(cfg, Run(cfg, st, run[..|run| - 1]), last.ev, last.now)
  }

  /** The store a service starts on: the local source and nothing else. */
  function Initial(cfg: Config, name: string): State {
    State(map[], map[cfg.localId := Source(name, Local, [])], [], map[])
  }

  /** The store of a service that has set up its Keycloak source as well (internal/app.go:214-221). */
  function WithKeycloak(cfg: Config, name: string, sourceId: SourceId, reserved: seq<string>): State {
    Initial(cfg, name).(sources := Initial(cfg, name).sources[sourceId := Source("keycloak", Keycloak, reserved)])
  }
}
