// The group service over a store (internal/groupmgmt/service.go): the checks in
// the order the code makes them, then one store operation.
module Service {
  import opened Wrappers
  import opened Text
  import opened Tokens
  import opened Patterns
  import opened Validate
  import opened Tuples
  import opened Transitions
  import opened MemoryStore
  import opened CycleCheck
  import S = Steps

  /** The answer and the state after a step that may be refused. */
  ghost predicate Answers(result: Result<()>, contents: State, before: State, step: Result<State>) {
    match step
    case Ok(after) => result == Ok(()) && contents == after
    case Err(error) => result == Err(error) && contents == before
  }

  class GroupService {
    const store: Store
    const cfg: S.Config

    constructor (store: Store, cfg: S.Config)
      ensures this.store == store && this.cfg == cfg
    {
      this.store, this.cfg := store, cfg;
    }

    // ── Guards ────────────────────────────────────────────────────────────────

    /** An admin, or one of the caller's tokens is among the group's managers. */
    method MayManage(caller: S.Caller, id: string) returns (may: bool)
      ensures may <==> S.MayManage(store.Contents(), caller, id)
    {
      if caller.admin {
        return true;
      }
      var managers := ManagersOf(store.managers, id);
      for i := 0 to |managers|
        invariant forall j :: 0 <= j < i ==> managers[j] !in caller.tokens
      {
        if managers[i] in caller.tokens {
          return true;
        }
      }
      return false;
    }

    method LocalGroup(caller: S.Caller, token: string) returns (result: Result<string>)
      ensures result == S.LocalGroup(cfg, store.Contents(), caller, token)
    {
      var id :- ParseGroupToken(token);
      if id !in store.groups {
        return Err(NotFound);
      }
      if store.groups[id].sourceId != Some(cfg.localId) {
        return Err(OwnedBySource);
      }
      var may := MayManage(caller, id);
      return if may then Ok(id) else Err(Forbidden);
    }

    /** Some other source's reserved name matches the id. */
    method IsReserved(id: string) returns (reserved: bool)
      ensures reserved <==> S.ReservedByOther(store.Contents(), cfg.localId, id)
    {
      var pending := store.sources.Keys;
      while pending != {}
        invariant pending <= store.sources.Keys
        invariant forall s, glob ::
                    s in store.sources && s !in pending && s != cfg.localId && glob in store.sources[s].reserved
                    ==> !GlobMatches(glob, id)
      {
        var s :| s in pending;
        if s != cfg.localId {
          var globs := store.sources[s].reserved;
          for i := 0 to |globs|
            invariant forall j :: 0 <= j < i ==> !GlobMatches(globs[j], id)
          {
            var matched := MatchGlob(globs[i], id);
            if matched {
              return true;
            }
          }
        }
        pending := pending - {s};
      }
      return false;
    }

    /** Normalizes and checks every manager token given. */
    method CheckManagers(managers: seq<string>) returns (result: Result<seq<string>>)
      ensures result == S.CheckManagerTokens(cfg, store.Contents(), managers)
    {
      ghost var st := store.Contents();
      var tokens: seq<string> := [];
      for i := 0 to |managers|
        invariant S.CheckManagerTokens(cfg, st, managers[..i]) == Ok(tokens)
      {
        assert managers[..i + 1][..i] == managers[..i];
        var token := CheckManagerToken(managers[i]);
        if token.Err? {
          RefusedStaysRefused(cfg, st, managers, i + 1);
          return Err(token.error);
        }
        tokens := tokens + [token.value];
      }
      assert managers[..|managers|] == managers;
      return Ok(tokens);
    }

    method CheckManagerToken(token: string) returns (result: Result<string>)
      ensures result == S.CheckManagerToken(cfg, store.Contents(), token)
    {
      var parsed :- ParseMemberToken(token);
      var (kind, id) := parsed;
      match kind {
        case User => return Ok(BuildToken(User, id));
        case Pattern => return Err(InvalidId);
        case Subgroup =>
          var (group, relation) := SplitGroupRelation(id);
          if !ValidGroupId(group) {
            return Err(InvalidId);
          }
          var rel :- S.CheckRelation(cfg, relation);
          return if group in store.groups then Ok(GroupToken(group, rel)) else Err(NotFound);
      }
    }

    // ── Groups ────────────────────────────────────────────────────────────────

    method CreateGroup(caller: S.Caller, rawId: string, displayName: string, description: string, managers: seq<string>)
      returns (result: Result<()>)
      requires store.Valid()
      modifies store
      ensures store.Valid()
      ensures Answers(result, store.Contents(), old(store.Contents()),
                      S.CreateGroup(cfg, old(store.Contents()), caller, rawId, displayName, description, managers))
    {
      if !caller.admin {
        return Err(Forbidden);
      }
      var id := NormalizeId(TrimPrefix(TrimSpace(rawId), GROUP_PREFIX));
      if !ValidGroupId(id) {
        return Err(InvalidId);
      }
      var reserved := IsReserved(id);
      if reserved {
        return Err(Reserved);
      }
      var tokens :- CheckManagers(managers);
      var name := if TrimSpace(displayName) == "" then id else displayName;
      var _ :- store.CreateGroup(id, Group(name, description, Some(cfg.localId)));
      AddManagers(id, tokens);
      return Ok(());
    }

    method AddManagers(id: string, tokens: seq<string>)
      requires store.Valid()
      modifies store`managers
      ensures store.Valid()
      ensures store.Contents() == old(store.Contents()).(managers := S.WithManagers(old(store.managers), id, tokens))
    {
      for i := 0 to |tokens|
        invariant store.Valid() && store.managers == S.WithManagers(old(store.managers), id, tokens[..i])
        invariant store.Contents() == old(store.Contents()).(managers := store.managers)
      {
        assert tokens[..i + 1][..i] == tokens[..i];
        store.AddManager(id, tokens[i]);
      }
      assert tokens[..|tokens|] == tokens;
    }

    method DeleteGroup(caller: S.Caller, groupToken: string) returns (result: Result<()>)
      requires store.Valid()
      modifies store, store.data
      ensures store.Valid()
      ensures Answers(result, store.Contents(), old(store.Contents()),
                      S.DeleteGroup(cfg, old(store.Contents()), caller, groupToken))
    {
      var id :- LocalGroup(caller, groupToken);
      if !caller.admin {
        return Err(Forbidden);
      }
      store.DeleteGroup(id);
      return Ok(());
    }

    method AddManager(caller: S.Caller, groupToken: string, managerToken: string) returns (result: Result<()>)
      requires store.Valid()
      modifies store
      ensures store.Valid()
      ensures Answers(result, store.Contents(), old(store.Contents()),
                      S.AddManager(cfg, old(store.Contents()), caller, groupToken, managerToken))
    {
      var id :- LocalGroup(caller, groupToken);
      var token :- CheckManagerToken(managerToken);
      store.AddManager(id, token);
      return Ok(());
    }

    // ── Members ───────────────────────────────────────────────────────────────

    method AddMember(caller: S.Caller, groupToken: string, relation: string, memberToken: string,
                     expires: Option<Instant>, now: Instant) returns (result: Result<()>)
      requires store.Valid()
      modifies store, store.data
      ensures store.Valid() && (store.data == old(store.data) || fresh(store.data))
      ensures Answers(result, store.Contents(), old(store.Contents()),
                      S.AddMember(cfg, old(store.Contents()), caller, groupToken, relation, memberToken, expires, now))
    {
      var m :- S.CheckMember(cfg, relation, memberToken, expires, now);
      var id :- LocalGroup(caller, groupToken);
      if m.kind == Subgroup {
        var edges := store.GroupEdges(now);
        var cycle := CheckNoCycle(edges, id, MemberGroup(m.id).0);
        if cycle {
          return Err(Cycle);
        }
      }
      store.AddMember(id, m.relation, m.kind, m.id, Some(cfg.localId), expires);
      return Ok(());
    }

    method RemoveMember(caller: S.Caller, groupToken: string, relation: string, memberToken: string)
      returns (result: Result<()>)
      requires store.Valid()
      modifies store, store.data
      ensures store.Valid()
      ensures Answers(result, store.Contents(), old(store.Contents()),
                      S.RemoveMember(cfg, old(store.Contents()), caller, groupToken, relation, memberToken))
    {
      var rel :- S.CheckRelation(cfg, relation);
      var parsed :- ParseMemberToken(memberToken);
      var (kind, memberId) := parsed;
      var id :- LocalGroup(caller, groupToken);
      store.RemoveMember(id, rel, kind, memberId);
      return Ok(());
    }

    method ChangeRelation(caller: S.Caller, groupToken: string, memberToken: string, fromRelation: string,
                          toRelation: string)
      returns (result: Result<()>)
      requires store.Valid()
      modifies store, store.data
      ensures store.Valid()
      ensures Answers(result, store.Contents(), old(store.Contents()),
                      S.ChangeRelation(cfg, old(store.Contents()), caller, groupToken, memberToken,
                                       fromRelation, toRelation))
    {
      var from :- S.CheckRelation(cfg, fromRelation);
      var to :- S.CheckRelation(cfg, toRelation);
      var parsed :- ParseMemberToken(memberToken);
      var (kind, memberId) := parsed;
      var id :- LocalGroup(caller, groupToken);
      if from == to {
        return Ok(());
      }
      CheckedRelationNamed(cfg, fromRelation);
      CheckedRelationNamed(cfg, toRelation);
      result := store.ChangeRelation(id, kind, memberId, from, to);
    }
  }

  /** A manager list with a refused token among its first n is refused with that token's error. */
  lemma {:induction false} RefusedStaysRefused(cfg: S.Config, st: State, tokens: seq<string>, n: nat)
    requires n <= |tokens| && S.CheckManagerTokens(cfg, st, tokens[..n]).Err?
    ensures S.CheckManagerTokens(cfg, st, tokens) == S.CheckManagerTokens(cfg, st, tokens[..n])
    decreases |tokens|
  {
    if n == |tokens| {
      assert tokens[..n] == tokens;
    } else {
      assert tokens[..|tokens| - 1][..n] == tokens[..n];
      RefusedStaysRefused(cfg, st, tokens[..|tokens| - 1], n);
    }
  }

  lemma CheckedRelationNamed(cfg: S.Config, relation: string)
    ensures S.CheckRelation(cfg, relation).Ok? ==>
              NormalizeRelation(S.CheckRelation(cfg, relation).value) == S.CheckRelation(cfg, relation).value
  {
  }
}
