// The sync engine and the administration of sources over a store
// (internal/sync/engine.go, internal/app.go:286-308, internal/webserver/api_sync.go).
module Engine {
  import opened Wrappers
  import opened Sequences
  import opened Text
  import opened Tokens
  import opened Patterns
  import opened Tuples
  import opened Resolution
  import opened Sort
  import opened Transitions
  import opened ChangeLaws
  import opened MemoryStore
  import opened Service
  import opened Invariants
  import S = Steps

  class SyncEngine {
    const store: Store
    const cfg: S.Config

    constructor (store: Store, cfg: S.Config)
      ensures this.store == store && this.cfg == cfg
    {
      this.store, this.cfg := store, cfg;
    }

    /** Puts the ids of an import into the stored spelling, in place. */
    method NormalizeIds(pairs: array<TuplePair>)
      modifies pairs
      ensures forall i :: 0 <= i < pairs.Length ==> pairs[i] == S.NormalizedPair(old(pairs[i]))
    {
      ghost var was := pairs[..];
      for i := 0 to pairs.Length
        invariant forall j :: 0 <= j < i ==> pairs[j] == S.NormalizedPair(was[j])
        invariant forall j :: i <= j < pairs.Length ==> pairs[j] == was[j]
      {
        NormalizeRow(pairs, i);
      }
    }

    method NormalizeRow(pairs: array<TuplePair>, i: nat)
      requires i < pairs.Length
      modifies pairs
      ensures pairs[i] == S.NormalizedPair(old(pairs[i]))
      ensures forall j :: 0 <= j < pairs.Length && j != i ==> pairs[j] == old(pairs[j])
    {
      pairs[i] := pairs[i].(groupId := NormalizeId(pairs[i].groupId), memberId := NormalizeId(pairs[i].memberId));
    }

    /** Checks one row's relations and overwrites it in place. */
    method CheckRow(pairs: array<TuplePair>, i: nat) returns (ok: bool)
      requires i < pairs.Length
      modifies pairs
      ensures ok <==> S.CheckedPair(cfg, old(pairs[i])).Ok?
      ensures ok ==> Ok(pairs[i]) == S.CheckedPair(cfg, old(pairs[i]))
      ensures forall j :: 0 <= j < pairs.Length && j != i ==> pairs[j] == old(pairs[j])
    {
      var rel := S.CheckRelation(cfg, pairs[i].relation);
      if rel.Err? {
        return false;
      }
      pairs[i] := pairs[i].(relation := rel.value);
      if pairs[i].kind == Subgroup {
        var (group, raw) := MemberGroup(pairs[i].memberId);
        var memberRel := S.CheckRelation(cfg, raw);
        if memberRel.Err? {
          return false;
        }
        pairs[i] := pairs[i].(memberId := JoinGroupRelation(group, memberRel.value));
      }
      return true;
    }

    /** Checks every relation of an import; one unknown relation refuses the whole. */
    method CheckRelations(pairs: array<TuplePair>) returns (ok: bool)
      modifies pairs
      ensures ok <==> forall i :: 0 <= i < pairs.Length ==> S.CheckedPair(cfg, old(pairs[i])).Ok?
      ensures ok ==> forall i :: 0 <= i < pairs.Length ==> Ok(pairs[i]) == S.CheckedPair(cfg, old(pairs[i]))
    {
      for i := 0 to pairs.Length
        invariant forall j :: 0 <= j < i ==> Ok(pairs[j]) == S.CheckedPair(cfg, old(pairs[j]))
        invariant forall j :: i <= j < pairs.Length ==> pairs[j] == old(pairs[j])
      {
        ok := CheckRow(pairs, i);
        if !ok {
          return;
        }
      }
      return true;
    }

    /** Refuses writing into a group of somebody else, or under a name another source has reserved. */
    method CheckOwnership(sourceId: SourceId, ids: set<string>) returns (ok: bool)
      ensures ok <==> forall id :: id in ids ==> S.MayWrite(store.Contents(), sourceId, id)
    {
      var pending := ids;
      while pending != {}
        invariant pending <= ids
        invariant forall id :: id in ids && id !in pending ==> S.MayWrite(store.Contents(), sourceId, id)
      {
        var id :| id in pending;
        if id in store.groups && store.groups[id].sourceId != Some(sourceId) {
          return false;
        }
        var reserved := IsReservedByOther(sourceId, id);
        if reserved {
          return false;
        }
        pending := pending - {id};
      }
      return true;
    }

    method IsReservedByOther(sourceId: SourceId, id: string) returns (reserved: bool)
      ensures reserved <==> S.ReservedByOther(store.Contents(), sourceId, id)
    {
      var pending := store.sources.Keys;
      while pending != {}
        invariant pending <= store.sources.Keys
        invariant forall s, glob ::
                    s in store.sources && s !in pending && s != sourceId && glob in store.sources[s].reserved
                    ==> !GlobMatches(glob, id)
      {
        var s :| s in pending;
        if s != sourceId {
          var matched := MatchesAny(store.sources[s].reserved, id);
          if matched {
            return true;
          }
        }
        pending := pending - {s};
      }
      return false;
    }

    /** slices.ContainsFunc over globs. */
    method MatchesAny(globs: seq<string>, id: string) returns (any: bool)
      ensures any <==> exists glob :: glob in globs && GlobMatches(glob, id)
    {
      for i := 0 to |globs|
        invariant forall j :: 0 <= j < i ==> !GlobMatches(globs[j], id)
      {
        var matched := MatchGlob(globs[i], id);
        if matched {
          return true;
        }
      }
      return false;
    }

    /** The rows of an import after normalizing and checking, or none when one of them is refused. */
    method Prepare(pairs: seq<TuplePair>) returns (prepared: Option<seq<TuplePair>>)
      ensures prepared == match S.PreparedPairs(cfg, pairs)
                          case Ok(ps) => Some(ps)
                          case Err(_) => None
    {
      var rows := new TuplePair[|pairs|](i requires 0 <= i < |pairs| => pairs[i]);
      NormalizeIds(rows);
      assert forall i :: 0 <= i < rows.Length ==> rows[i] == S.NormalizedPair(pairs[i]);
      var ok := CheckRelations(rows);
      if ok {
        PreparedPointwise(cfg, pairs, rows[..]);
        return Some(rows[..]);
      }
      var i :| 0 <= i < |pairs| && S.PreparedPair(cfg, pairs[i]).Err?;
      RefusedRow(cfg, pairs, i);
      return None;
    }

    /** One sync of one source, from the rows its importer parsed. */
    method RunSync(sourceId: SourceId, pairs: seq<TuplePair>, descriptions: map<string, string>)
      returns (result: Result<()>)
      requires store.Valid()
      modifies store, store.data
      ensures store.Valid() && (store.data == old(store.data) || fresh(store.data))
      ensures Answers(result, store.Contents(), old(store.Contents()),
                      S.RunSync(cfg, old(store.Contents()), sourceId, pairs, descriptions))
    {
      if sourceId !in store.sources {
        return Err(NotFound);
      }
      if store.sources[sourceId].typ == Local {
        return Err(LocalSource);
      }
      if exists p :: p in pairs && !S.ValidPair(p) {
        return Err(ImportRefused);
      }
      var prepared := Prepare(pairs);
      if prepared == None {
        return Err(ImportRefused);
      }
      var owned := CheckOwnership(sourceId, ImportGroups(prepared.value));
      if !owned {
        return Err(ImportRefused);
      }
      var added, removed := store.ReplaceTuples(sourceId, prepared.value, descriptions);
      return Ok(());
    }

    // ── Sources ───────────────────────────────────────────────────────────────

    /** Some group of another owner already has a name the globs would reserve. */
    method IsReservationTaken(owner: Option<SourceId>, reserved: seq<string>) returns (taken: bool)
      ensures taken <==> S.ReservationTaken(store.Contents(), owner, reserved)
    {
      var pending := store.groups.Keys;
      while pending != {}
        invariant pending <= store.groups.Keys
        invariant forall id, glob ::
                    id in store.groups && id !in pending && (owner == None || store.groups[id].sourceId != owner)
                    && glob in reserved
                    ==> !GlobMatches(glob, id)
      {
        var id :| id in pending;
        if owner == None || store.groups[id].sourceId != owner {
          var matched := MatchesAny(reserved, id);
          if matched {
            return true;
          }
        }
        pending := pending - {id};
      }
      return false;
    }

    method CreateSource(sourceId: SourceId, source: Source) returns (result: Result<()>)
      requires store.Valid()
      modifies store
      ensures store.Valid()
      ensures Answers(result, store.Contents(), old(store.Contents()),
                      S.CreateSource(old(store.Contents()), sourceId, source))
    {
      if sourceId in store.sources {
        return Err(AlreadyExists);
      }
      if source.typ != Csv && source.typ != Ldif {
        return Err(InvalidId);
      }
      var taken := IsReservationTaken(None, source.reserved);
      if taken {
        return Err(ReservationConflict);
      }
      store.CreateSource(sourceId, source);
      return Ok(());
    }

    method UpdateSource(sourceId: SourceId, name: string, reserved: seq<string>) returns (result: Result<()>)
      requires store.Valid()
      modifies store
      ensures store.Valid()
      ensures Answers(result, store.Contents(), old(store.Contents()),
                      S.UpdateSource(old(store.Contents()), sourceId, name, reserved))
    {
      if sourceId !in store.sources {
        return Err(NotFound);
      }
      if store.sources[sourceId].typ == Local {
        return Err(LocalSource);
      }
      var taken := IsReservationTaken(Some(sourceId), reserved);
      if taken {
        return Err(ReservationConflict);
      }
      result := store.UpdateSource(sourceId, name, reserved);
    }

    /** Deletes a source; its groups pass to the local one rather than to nobody. */
    method DeleteSource(sourceId: SourceId) returns (result: Result<()>)
      requires store.Valid()
      modifies store, store.data
      ensures store.Valid()
      ensures Answers(result, store.Contents(), old(store.Contents()),
                      S.DeleteSource(cfg, old(store.Contents()), sourceId))
    {
      if sourceId !in store.sources {
        return Err(NotFound);
      }
      if store.sources[sourceId].typ == Local {
        return Err(LocalSource);
      }
      store.DeleteSource(sourceId);
      var moved := store.MoveToSource(None, cfg.localId);
      return Ok(());
    }

    /** Every source, by name. */
    method ListSources() returns (sources: seq<(SourceId, Source)>)
      ensures Elements(sources) == store.sources.Items && IsSorted(sources, NameLeq)
    {
      var out: seq<(SourceId, Source)> := [];
      var pending := store.sources.Items;
      while pending != {}
        invariant pending <= store.sources.Items && Elements(out) == store.sources.Items - pending
      {
        var item :| item in pending;
        ElementsConcat(out, [item]);
        out := out + [item];
        pending := pending - {item};
      }
      sources := Sorted(out, NameLeq);
      NameLeqTotal();
      SortedIsSorted(out, NameLeq);
      forall x ensures x in out <==> x in sources {
        assert x in multiset(out) <==> x in multiset(sources);
      }
      assert Elements(out) == store.sources.Items;
    }

    /** Groups of no source pass to the local source, then the named sources one after the other. */
    method AdoptIntoLocal(names: seq<string>) returns (result: Result<()>, ghost sources: seq<(SourceId, Source)>)
      requires store.Valid()
      modifies store, store.data
      ensures store.Valid()
      ensures Elements(sources) == old(store.sources).Items
      ensures (store.Contents(), result) == StartedUp(cfg, old(store.Contents()), names, sources)
    {
      var moved := store.MoveToSource(None, cfg.localId);
      var listed := ListSources();
      sources := listed;
      ghost var start := store.Contents();
      for n := 0 to |names|
        invariant store.Valid() && store.data == old(store.data)
        invariant (store.Contents(), Ok(())) == Adopted(cfg, start, names[..n], sources)
      {
        ghost var before := store.Contents();
        result := AdoptNamed(names[n], listed);
        AdoptedMore(cfg, start, names, sources, n, before);
        if result.Err? {
          AdoptionEnded(cfg, start, names, sources, n + 1);
          return;
        }
      }
      assert names[..|names|] == names;
      return Ok(()), sources;
    }

    /** One name of the list: move, then delete. */
    method AdoptNamed(name: string, listed: seq<(SourceId, Source)>) returns (result: Result<()>)
      requires store.Valid()
      modifies store, store.data
      ensures store.Valid() && store.data == old(store.data)
      ensures (store.Contents(), result) == AdoptedOne(cfg, old(store.Contents()), name, listed)
    {
      var i := NamedSource(listed, name);
      if i == |listed| {
        return Ok(());
      }
      if listed[i].1.typ != Csv && listed[i].1.typ != Ldif {
        return Err(InvalidId);
      }
      var moved := store.MoveToSource(Some(listed[i].0), cfg.localId);
      store.DeleteSource(listed[i].0);
      return Ok(());
    }
  }

  predicate NameLeq(a: (SourceId, Source), b: (SourceId, Source)) {
    Leq(a.1.name, b.1.name)
  }

  lemma NameLeqTotal()
    ensures IsTotalPreorder(NameLeq)
  {
    forall a, b ensures NameLeq(a, b) || NameLeq(b, a) {
      LeqTotal(a.1.name, b.1.name);
    }
    forall a, b, c | NameLeq(a, b) && NameLeq(b, c) ensures NameLeq(a, c) {
      LeqTransitive(a.1.name, b.1.name, c.1.name);
    }
  }

  lemma {:induction false} PreparedPointwise(cfg: S.Config, pairs: seq<TuplePair>, rows: seq<TuplePair>)
    requires |rows| == |pairs|
    requires forall i :: 0 <= i < |pairs| ==> Ok(rows[i]) == S.PreparedPair(cfg, pairs[i])
    ensures S.PreparedPairs(cfg, pairs) == Ok(rows)
  {
    if pairs != [] {
      var n := |pairs| - 1;
      forall i | 0 <= i < n ensures Ok(rows[..n][i]) == S.PreparedPair(cfg, pairs[..n][i]) {
        assert Ok(rows[i]) == S.PreparedPair(cfg, pairs[i]);
      }
      PreparedPointwise(cfg, pairs[..n], rows[..n]);
      PreparedMore(cfg, pairs, rows);
    }
  }

  lemma PreparedMore(cfg: S.Config, pairs: seq<TuplePair>, rows: seq<TuplePair>)
    requires |rows| == |pairs| > 0
    requires S.PreparedPairs(cfg, pairs[..|pairs| - 1]) == Ok(rows[..|rows| - 1])
    requires S.PreparedPair(cfg, pairs[|pairs| - 1]) == Ok(rows[|rows| - 1])
    ensures S.PreparedPairs(cfg, pairs) == Ok(rows)
  {
    assert rows == rows[..|rows| - 1] + [rows[|rows| - 1]];
  }

  lemma {:induction false} RefusedRow(cfg: S.Config, pairs: seq<TuplePair>, i: nat)
    requires i < |pairs| && S.PreparedPair(cfg, pairs[i]).Err?
    ensures S.PreparedPairs(cfg, pairs).Err?
  {
    if i < |pairs| - 1 {
      RefusedRow(cfg, pairs[..|pairs| - 1], i);
    }
  }

  // ── Adoption at startup ─────────────────────────────────────────────────────

  /** The first source of that name, or |sources|. */
  function NamedSource(sources: seq<(SourceId, Source)>, name: string): (i: nat)
    ensures i <= |sources|
    ensures i < |sources| ==> sources[i].1.name == name
    ensures forall j :: 0 <= j < i ==> sources[j].1.name != name
  {
    if sources == [] then 0
    else if sources[0].1.name == name then 0
    else
      var i := NamedSource(sources[1..], name);
      assert forall j :: 0 < j < |sources| ==> sources[j] == sources[1..][j - 1];
      i + 1
  }

  /** A name matching no source was adopted already; one of the wrong type is refused. */
  ghost function AdoptedOne(cfg: S.Config, st: State, name: string,
                            sources: seq<(SourceId, Source)>): (State, Result<()>) {
    var i := NamedSource(sources, name);
    if i == |sources| then (st, Ok(()))
    else if sources[i].1.typ != Csv && sources[i].1.typ != Ldif then (st, Err(InvalidId))
    else (WithoutSource(Moved(st, Some(sources[i].0), cfg.localId), sources[i].0), Ok(()))
  }

  /** What adopting the named sources in turn makes of a state; a refused one ends it. */
  ghost function Adopted(cfg: S.Config, st: State, names: seq<string>,
                         sources: seq<(SourceId, Source)>): (State, Result<()>) {
    if names == [] then (st, Ok(()))
    else
      var (before, result) := Adopted(cfg, st, names[..|names| - 1], sources);
      if result.Err? then (before, result) else AdoptedOne(cfg, before, names[|names| - 1], sources)
  }

  lemma AdoptedMore(cfg: S.Config, st: State, names: seq<string>, sources: seq<(SourceId, Source)>, n: nat,
                    before: State)
    requires n < |names| && Adopted(cfg, st, names[..n], sources) == (before, Ok(()))
    ensures Adopted(cfg, st, names[..n + 1], sources) == AdoptedOne(cfg, before, names[n], sources)
  {
    assert names[..n + 1][..n] == names[..n];
  }

  lemma {:induction false} AdoptionEnded(cfg: S.Config, st: State, names: seq<string>, sources: seq<(SourceId, Source)>,
                                         n: nat)
    requires n <= |names| && Adopted(cfg, st, names[..n], sources).1.Err?
    ensures Adopted(cfg, st, names, sources) == Adopted(cfg, st, names[..n], sources)
    decreases |names|
  {
    if n == |names| {
      assert names[..n] == names;
    } else {
      assert names[..|names| - 1][..n] == names[..n];
      AdoptionEnded(cfg, st, names[..|names| - 1], sources, n);
    }
  }

  /** The local source is none of those that can be adopted. */
  predicate KeepsLocal(cfg: S.Config, sources: seq<(SourceId, Source)>) {
    forall i :: 0 <= i < |sources| && sources[i].0 == cfg.localId ==> sources[i].1.typ == Local
  }

  lemma {:induction false} AdoptedKeepsTokens(cfg: S.Config, st: State, names: seq<string>,
                                              sources: seq<(SourceId, Source)>, now: Instant, email: string, p: Pair)
    requires KeepsLocal(cfg, sources)
    ensures var after := Adopted(cfg, st, names, sources).0;
            Held(LiveTuples(after.tuples, now), email) == Held(LiveTuples(st.tuples, now), email)
            && MemberTokens(LiveTuples(after.tuples, now), p) == MemberTokens(LiveTuples(st.tuples, now), p)
            && after.groups.Keys == st.groups.Keys
  {
    if names != [] {
      AdoptedKeepsTokens(cfg, st, names[..|names| - 1], sources, now, email, p);
      var before := Adopted(cfg, st, names[..|names| - 1], sources).0;
      var i := NamedSource(sources, names[|names| - 1]);
      if i < |sources| && sources[i].0 != cfg.localId {
        AdoptionKeepsTokens(before, sources[i].0, cfg.localId, now, email, p);
      }
    }
  }

  lemma {:induction false} AdoptedKeepsInv(cfg: S.Config, st: State, names: seq<string>,
                                           sources: seq<(SourceId, Source)>)
    requires Inv(cfg, st) && KeepsLocal(cfg, sources)
    ensures Inv(cfg, Adopted(cfg, st, names, sources).0)
  {
    if names != [] {
      AdoptedKeepsInv(cfg, st, names[..|names| - 1], sources);
      var before := Adopted(cfg, st, names[..|names| - 1], sources).0;
      var i := NamedSource(sources, names[|names| - 1]);
      if i < |sources| && sources[i].0 != cfg.localId {
        AdoptedKeeps(cfg, before, sources[i].0);
        AdoptedOwns(cfg, before, sources[i].0);
      }
    }
  }

  /** The whole of it: groups of no source first, then the names in turn. */
  ghost function StartedUp(cfg: S.Config, st: State, names: seq<string>,
                           sources: seq<(SourceId, Source)>): (State, Result<()>) {
    Adopted(cfg, Moved(st, None, cfg.localId), names, sources)
  }

  lemma ListedLocal(cfg: S.Config, st: State, sources: seq<(SourceId, Source)>)
    requires HasLocal(cfg, st) && Elements(sources) == st.sources.Items
    ensures KeepsLocal(cfg, sources)
  {
    forall i | 0 <= i < |sources| && sources[i].0 == cfg.localId ensures sources[i].1.typ == Local {
      assert sources[i] in Elements(sources);
    }
  }

  /** Startup adoption, whatever it names and wherever it stops, changes nobody's tokens and no group's members. */
  lemma StartupKeepsTokens(cfg: S.Config, st: State, names: seq<string>, sources: seq<(SourceId, Source)>,
                           now: Instant, email: string, p: Pair)
    requires HasLocal(cfg, st) && Elements(sources) == st.sources.Items
    ensures var after := StartedUp(cfg, st, names, sources).0;
            Held(LiveTuples(after.tuples, now), email) == Held(LiveTuples(st.tuples, now), email)
            && MemberTokens(LiveTuples(after.tuples, now), p) == MemberTokens(LiveTuples(st.tuples, now), p)
            && after.groups.Keys == st.groups.Keys
  {
    ListedLocal(cfg, st, sources);
    AdoptedKeepsTokens(cfg, Moved(st, None, cfg.localId), names, sources, now, email, p);
    MovedKeys(st.tuples, None, cfg.localId, now);
    KeysDecide(LiveTuples(MovedTuples(st.tuples, None, cfg.localId), now), LiveTuples(st.tuples, now), email, p);
  }

  /** No group belongs to a source that is gone; some may belong to none. */
  predicate NoneDangling(st: State) {
    forall id :: id in st.groups ==> st.groups[id].sourceId == None || st.groups[id].sourceId.value in st.sources
  }

  /**
   * From a consistent store, groups of no source included, it leaves everything a serial run keeps: every group has a
   * source then.
   */
  lemma StartupKeepsInv(cfg: S.Config, st: State, names: seq<string>, sources: seq<(SourceId, Source)>)
    requires Consistent(cfg, st) && NoneDangling(st)
    requires Elements(sources) == st.sources.Items
    ensures Inv(cfg, StartedUp(cfg, st, names, sources).0)
  {
    ListedLocal(cfg, st, sources);
    AdoptOrphansKeeps(cfg, st);
    AdoptedKeepsInv(cfg, Moved(st, None, cfg.localId), names, sources);
  }
}
