// The in-memory store (internal/storage/memory.go). The tuple list is a Go slice:
// a backing array and a length, compacted and updated in place.
module MemoryStore {
  import opened Wrappers
  import opened Sequences
  import opened Text
  import opened Tokens
  import opened Tuples
  import opened Resolution
  import opened UserTokens
  import opened Rules
  import opened Traversals
  import opened Transitions
  import opened Graph
  import opened Sort

  /** What the first i tuples leave. */
  ghost predicate KeptOf(done: seq<Tuple>, ts: seq<Tuple>, i: nat, keep: Tuple -> bool)
    requires i <= |ts|
  {
    |done| <= i && done == Filter(ts[..i], keep)
  }

  lemma KeptMore(done: seq<Tuple>, ts: seq<Tuple>, i: nat, keep: Tuple -> bool)
    requires i < |ts| && KeptOf(done, ts, i, keep)
    ensures KeptOf(if keep(ts[i]) then done + [ts[i]] else done, ts, i + 1, keep)
  {
    FilterMore(ts, i, keep);
  }

  /** append to the front of the array, at or before the position last read. */
  method PutAt(data: array<Tuple>, count: nat, kept: nat, i: nat, t: Tuple)
    requires kept <= i < count <= data.Length
    modifies data
    ensures data[..kept + 1] == old(data[..kept]) + [t]
    ensures data[i + 1..count] == old(data[i + 1..count])
  {
    data[kept] := t;
  }

  /** kept := s.tuples[:0], then append what is kept: the write index never overtakes the read index. */
  method KeepInPlace(data: array<Tuple>, count: nat, keep: Tuple -> bool) returns (kept: nat)
    requires count <= data.Length
    modifies data
    ensures kept <= count && data[..kept] == Filter(old(data[..count]), keep)
  {
    ghost var ts := data[..count];
    ghost var done: seq<Tuple> := [];
    kept := 0;
    for i := 0 to count
      invariant kept == |done| <= i && KeptOf(done, ts, i, keep)
      invariant data[..kept] == done && data[i..count] == ts[i..]
    {
      var t := data[i];
      assert data[i..count][0] == t && ts[i..][0] == ts[i];
      KeptMore(done, ts, i, keep);
      assert data[i + 1..count] == data[i..count][1..];
      if keep(t) {
        PutAt(data, count, kept, i, t);
        kept := kept + 1;
        done := done + [t];
      }
    }
    assert ts[..|ts|] == ts;
  }

  /** The tail moves down over one position. */
  method DropInPlace(data: array<Tuple>, count: nat, i: nat)
    requires i < count <= data.Length
    modifies data
    ensures data[..count - 1] == Without(old(data[..count]), i)
  {
    ghost var ts := data[..count];
    var j := i;
    while j + 1 < count
      invariant i <= j < count
      invariant forall k :: 0 <= k < i ==> data[k] == ts[k]
      invariant forall k :: i <= k < j ==> data[k] == ts[k + 1]
      invariant forall k :: j < k < count ==> data[k] == ts[k]
    {
      data[j] := data[j + 1];
      j := j + 1;
    }
    forall k | 0 <= k < count - 1 ensures data[k] == Without(ts, i)[k] {
    }
    assert data[..count - 1] == Without(ts, i);
  }

  class Store {
    var groups: map<string, Group>
    var sources: map<SourceId, Source>
    var managers: map<string, seq<string>>
    var data: array<Tuple>
    var count: nat

    ghost predicate Valid()
      reads this, data
    {
      count <= data.Length && WellFormed(Tuples())
    }

    ghost function Tuples(): seq<Tuple>
      reads this, data
    {
      if count <= data.Length then data[..count] else []
    }

    ghost function Contents(): State
      reads this, data
    {
      State(groups, sources, Tuples(), managers)
    }

    constructor ()
      ensures Valid() && fresh(data)
      ensures Contents() == State(map[], map[], [], map[])
    {
      groups, sources, managers := map[], map[], map[];
      data := new Tuple[0];
      count := 0;
    }

    // ── The slice ─────────────────────────────────────────────────────────────

    method Compact(keep: Tuple -> bool)
      requires Valid()
      modifies this`count, data
      ensures Valid() && Tuples() == Filter(old(Tuples()), keep)
    {
      FilterElements(Tuples(), keep);
      count := KeepInPlace(data, count, keep);
    }

    /** append: in place while the backing array has room, else into a larger one. */
    method Append(t: Tuple)
      requires Valid() && WellFormedKey(KeyOf(t))
      modifies this`count, this`data, data
      ensures Valid() && (data == old(data) || fresh(data))
      ensures Tuples() == old(Tuples()) + [t]
    {
      if count == data.Length {
        var larger := new Tuple[2 * count + 1];
        for i := 0 to count
          invariant larger[..i] == data[..i]
          modifies larger
        {
          larger[i] := data[i];
        }
        data := larger;
      }
      data[count] := t;
      count := count + 1;
    }

    /** slices.IndexFunc on the tuple's key. */
    method Find(k: Key) returns (i: nat)
      requires Valid()
      ensures i == IndexOf(Tuples(), k)
    {
      i := 0;
      while i < count && KeyOf(data[i]) != k
        invariant i <= count
        invariant forall j :: 0 <= j < i ==> KeyOf(data[j]) != k
      {
        i := i + 1;
      }
    }

    // ── Groups and managers ───────────────────────────────────────────────────

    method CreateGroup(id: string, group: Group) returns (result: Result<()>)
      requires Valid()
      modifies this`groups
      ensures Valid()
      ensures result == if id in old(groups) then Err(AlreadyExists) else Ok(())
      ensures Contents() == if result.Ok? then old(Contents()).(groups := old(groups)[id := group]) else old(Contents())
    {
      if id in groups {
        return Err(AlreadyExists);
      }
      groups := groups[id := group];
      return Ok(());
    }

    /** Drops the group's own managers and, in every other list, the tokens naming the group. */
    method ForgetManagers(id: string)
      modifies this`managers
      ensures managers == ManagersWithout(old(managers), id)
    {
      managers := managers - {id};
      ghost var was := managers;
      var pending := managers.Keys;
      while pending != {}
        invariant pending <= managers.Keys == was.Keys
        invariant forall g :: g in pending ==> managers[g] == was[g]
        invariant forall g :: g in was && g !in pending ==> managers[g] == Filter(was[g], NotNaming(id))
      {
        var g :| g in pending;
        managers := managers[g := Filter(managers[g], NotNaming(id))];
        pending := pending - {g};
      }
    }

    method DeleteGroup(id: string)
      requires Valid()
      modifies this`groups, this`managers, this`count, data
      ensures Valid() && Contents() == WithoutGroup(old(Contents()), id)
    {
      groups := groups - {id};
      ForgetManagers(id);
      Compact(NotMentioning(id));
    }

    method AddManager(id: string, token: string)
      requires Valid()
      modifies this`managers
      ensures Valid()
      ensures Contents() == old(Contents()).(managers := WithManager(old(managers), id, token))
    {
      var tokens := if id in managers then managers[id] else [];
      var i := 0;
      while i < |tokens|
        invariant i <= |tokens| && token !in tokens[..i]
      {
        if tokens[i] == token {
          return;
        }
        assert tokens[..i + 1] == tokens[..i] + [tokens[i]];
        i := i + 1;
      }
      assert tokens[..|tokens|] == tokens;
      managers := managers[id := tokens + [token]];
    }

    // ── Members ───────────────────────────────────────────────────────────────

    method AddMember(groupId: string, relation: string, kind: Kind, memberId: string,
                     sourceId: Option<SourceId>, expires: Option<Instant>)
      requires Valid()
      modifies this`count, this`data, data
      ensures Valid() && (data == old(data) || fresh(data))
      ensures Contents() == old(Contents()).(
                tuples := Upsert(old(Tuples()), MakeKey(groupId, relation, kind, memberId), sourceId, expires))
    {
      var k := MakeKey(groupId, relation, kind, memberId);
      MadeKeyWellFormed(groupId, relation, kind, memberId);
      var i := Find(k);
      if i < count {
        ghost var ts := Tuples();
        data[i] := data[i].(expires := expires);
        assert Tuples() == ts[i := ts[i].(expires := expires)];
        assert forall t :: t in Tuples() ==> t in ts || KeyOf(t) == KeyOf(ts[i]);
      } else {
        Append(NewTuple(k, sourceId, expires));
      }
    }

    method RemoveMember(groupId: string, relation: string, kind: Kind, memberId: string)
      requires Valid()
      modifies this`count, data
      ensures Valid()
      ensures Contents() == old(Contents()).(
                tuples := WithoutKey(old(Tuples()), MakeKey(groupId, relation, kind, memberId)))
    {
      Compact(NotKey(MakeKey(groupId, relation, kind, memberId)));
    }

    /** slices.Delete of one position. */
    method DeleteAt(i: nat)
      requires Valid() && i < count
      modifies this`count, data
      ensures Valid() && Tuples() == Without(old(Tuples()), i)
    {
      DropInPlace(data, count, i);
      count := count - 1;
    }

    /** The one entry gets the later expiry of the two, and the other goes. */
    method MergeInto(target: nat, source: nat)
      requires Valid() && target < count && source < count
      modifies this`count, data
      ensures Valid()
      ensures var ts := old(Tuples());
              var merged := ts[target].(expires := LaterExpiry(ts[source].expires, ts[target].expires));
              Tuples() == Without(ts[target := merged], source)
    {
      ghost var ts := Tuples();
      var merged := data[target].(expires := LaterExpiry(data[source].expires, data[target].expires));
      data[target] := merged;
      assert Tuples() == ts[target := merged];
      assert forall t :: t in Tuples() ==> t in ts || KeyOf(t) == KeyOf(ts[target]);
      DeleteAt(source);
    }

    method ChangeRelation(groupId: string, kind: Kind, memberId: string, from: string, to: string)
      returns (result: Result<()>)
      requires Valid()
      modifies this`count, data
      ensures Valid()
      ensures var changed := Rerelate(old(Tuples()), MakeKey(groupId, from, kind, memberId), NormalizeRelation(to));
              (result == if changed.Ok? then Ok(()) else Err(NotFound))
              && Contents() == if changed.Ok? then old(Contents()).(tuples := changed.value) else old(Contents())
    {
      var k := MakeKey(groupId, from, kind, memberId);
      MadeKeyWellFormed(groupId, to, kind, memberId);
      var toRelation := NormalizeRelation(to);
      var source := Find(k);
      if source == count {
        return Err(NotFound);
      }
      if k.relation == toRelation {
        return Ok(());
      }
      var target := Find(k.(relation := toRelation));
      ghost var ts := Tuples();
      if target == count {
        data[source] := data[source].(relation := toRelation);
        assert Tuples() == ts[source := ts[source].(relation := toRelation)];
        assert forall t :: t in Tuples() ==> t in ts || KeyOf(t) == k.(relation := toRelation);
      } else {
        MergeInto(target, source);
      }
      return Ok(());
    }

    // ── Sources ───────────────────────────────────────────────────────────────

    /** Leaves the source's groups to no source. */
    method OrphanGroups(sourceId: SourceId)
      modifies this`groups
      ensures groups == OrphanedGroups(old(groups), sourceId)
    {
      ghost var was := groups;
      var pending := groups.Keys;
      while pending != {}
        invariant pending <= groups.Keys == was.Keys
        invariant forall g :: g in was ==> groups[g] == if g in pending then was[g] else Orphaned(was[g], sourceId)
      {
        var g :| g in pending;
        if groups[g].sourceId == Some(sourceId) {
          groups := groups[g := groups[g].(sourceId := None)];
        }
        pending := pending - {g};
      }
    }

    method DeleteSource(sourceId: SourceId)
      requires Valid()
      modifies this`groups, this`sources, this`count, data
      ensures Valid() && Contents() == WithoutSource(old(Contents()), sourceId)
    {
      Compact(NotOwnedBy(sourceId));
      OrphanGroups(sourceId);
      sources := sources - {sourceId};
    }

    /** The groups' half of MoveToSource, in whatever order the map is walked. */
    method MoveGroups(from: Option<SourceId>, to: SourceId) returns (moved: seq<string>)
      modifies this`groups
      ensures groups == MovedGroups(old(groups), from, to)
      ensures Lists(moved, OwnedGroups(old(groups), from))
    {
      moved := [];
      ghost var was := groups;
      var pending := groups.Keys;
      while pending != {}
        invariant pending <= groups.Keys == was.Keys
        invariant forall g :: g in was ==> groups[g] == if g in pending then was[g] else MovedGroup(was[g], from, to)
        invariant Lists(moved, OwnedGroups(was, from) - pending)
      {
        var g :| g in pending;
        if groups[g].sourceId == from {
          groups := groups[g := groups[g].(sourceId := Some(to))];
          assert OwnedGroups(was, from) - (pending - {g}) == (OwnedGroups(was, from) - pending) + {g};
          ListsMore(moved, OwnedGroups(was, from) - pending, g);
          moved := moved + [g];
        } else {
          assert OwnedGroups(was, from) - (pending - {g}) == OwnedGroups(was, from) - pending;
        }
        pending := pending - {g};
      }
      assert OwnedGroups(was, from) - pending == OwnedGroups(was, from);
    }

    /** The tuples' half: the source is overwritten in place. */
    method MoveTuples(from: Option<SourceId>, to: SourceId)
      requires Valid()
      modifies data
      ensures Valid() && Tuples() == MovedTuples(old(Tuples()), from, to)
    {
      ghost var ts := Tuples();
      for i := 0 to count
        invariant forall j :: 0 <= j < i ==> data[j] == MovedTuple(ts[j], from, to)
        invariant forall j :: i <= j < count ==> data[j] == ts[j]
      {
        data[i] := MovedTuple(data[i], from, to);
      }
      MovedTuplesWellFormed(ts, from, to);
      assert Tuples() == MovedTuples(ts, from, to);
    }

    /** Everything `from` owns (None: what no source owns) passes to `to`; answers the groups moved, sorted. */
    method MoveToSource(from: Option<SourceId>, to: SourceId) returns (moved: seq<string>)
      requires Valid()
      modifies this`groups, data
      ensures Valid() && Contents() == Moved(old(Contents()), from, to)
      ensures Lists(moved, OwnedGroups(old(groups), from)) && IsSorted(moved, Leq)
    {
      var ids := MoveGroups(from, to);
      MoveTuples(from, to);
      moved := Sorted(ids, Leq);
      LeqPreorder();
      SortedIsSorted(ids, Leq);
      ListsPermuted(ids, moved, OwnedGroups(old(groups), from));
    }

    method CreateSource(sourceId: SourceId, source: Source)
      requires Valid()
      modifies this`sources
      ensures Valid() && Contents() == old(Contents()).(sources := old(sources)[sourceId := source])
    {
      sources := sources[sourceId := source];
    }

    method UpdateSource(sourceId: SourceId, name: string, reserved: seq<string>) returns (result: Result<()>)
      requires Valid()
      modifies this`sources
      ensures Valid()
      ensures result == if sourceId in old(sources) then Ok(()) else Err(NotFound)
      ensures Contents() == if result.Err? then old(Contents()) else
                var changed := old(sources)[sourceId].(name := name, reserved := reserved);
                old(Contents()).(sources := old(sources)[sourceId := changed])
    {
      if sourceId !in sources {
        return Err(NotFound);
      }
      sources := sources[sourceId := sources[sourceId].(name := name, reserved := reserved)];
      return Ok(());
    }

    // ── Imports ───────────────────────────────────────────────────────────────

    /** The keys stored for a source. */
    method KeysOf(sourceId: SourceId) returns (keys: set<Key>)
      requires Valid()
      ensures keys == SourceKeys(Tuples(), sourceId)
    {
      keys := {};
      for i := 0 to count
        invariant keys == set j | 0 <= j < i && data[j].sourceId == Some(sourceId) :: KeyOf(data[j])
      {
        if data[i].sourceId == Some(sourceId) {
          keys := keys + {KeyOf(data[i])};
        }
      }
      assert forall i :: 0 <= i < count ==> data[i] in Tuples();
    }

    /** Creates a missing group for the source, or brings an existing one's description up to date. */
    method ImportGroup(id: string, descriptions: map<string, string>, sourceId: SourceId)
      requires Valid()
      modifies this`groups
      ensures Valid() && groups == ImportedGroups(old(groups), {id}, descriptions, sourceId)
    {
      if id !in groups {
        groups := groups[id := Group(id, DescriptionOf(descriptions, id), Some(sourceId))];
      } else if id in descriptions && groups[id].description != descriptions[id] {
        groups := groups[id := groups[id].(description := descriptions[id])];
      }
    }

    /** One row of an import. */
    method ImportRow(p: TuplePair, keys: set<Key>, added: nat, existing: set<Key>, descriptions: map<string, string>,
                     sourceId: SourceId)
      returns (keys': set<Key>, added': nat)
      requires Valid()
      modifies this`groups, this`count, this`data, data
      ensures Valid() && (data == old(data) || fresh(data))
      ensures ImportState(groups, Tuples(), keys', added')
           == ImportStep(ImportState(old(groups), old(Tuples()), keys, added), p, existing, descriptions, sourceId)
    {
      keys', added' := keys, added;
      var k := PairKey(p);
      if k in keys {
        return;
      }
      keys' := keys + {k};
      ImportGroup(p.groupId, descriptions, sourceId);
      if k !in existing {
        MadeKeyWellFormed(p.groupId, p.relation, p.kind, p.memberId);
        Append(NewTuple(k, Some(sourceId), None));
        added' := added + 1;
      }
    }

    /** The first loop of ReplaceTuples, over the rows of the import. */
    method AddImport(sourceId: SourceId, pairs: seq<TuplePair>, existing: set<Key>, descriptions: map<string, string>)
      returns (keys: set<Key>, added: nat)
      requires Valid()
      modifies this`groups, this`count, this`data, data
      ensures Valid() && (data == old(data) || fresh(data))
      ensures ImportState(groups, Tuples(), keys, added)
           == ImportRows(ImportState(old(groups), old(Tuples()), {}, 0), pairs, existing, descriptions, sourceId)
    {
      ghost var start := ImportState(groups, Tuples(), {}, 0);
      keys, added := {}, 0;
      for n := 0 to |pairs|
        invariant Valid() && (data == old(data) || fresh(data))
        invariant ImportState(groups, Tuples(), keys, added)
               == ImportRows(start, pairs[..n], existing, descriptions, sourceId)
      {
        assert pairs[..n + 1][..n] == pairs[..n];
        keys, added := ImportRow(pairs[n], keys, added, existing, descriptions, sourceId);
      }
      assert pairs[..|pairs|] == pairs;
    }

    /** slices.ContainsFunc over the tuples. */
    method IsMentioned(id: string) returns (used: bool)
      requires Valid()
      ensures used <==> exists t :: t in Tuples() && Mentions(t, id)
    {
      for i := 0 to count
        invariant forall j :: 0 <= j < i ==> !Mentions(data[j], id)
      {
        if Mentions(data[i], id) {
          assert data[i] in Tuples();
          return true;
        }
      }
      return false;
    }

    /** Whether some manager token names the group. */
    method IsManaging(id: string) returns (used: bool)
      ensures used <==> exists g, token :: g in managers && token in managers[g] && ManagedGroupName(token) == Some(id)
    {
      used := false;
      var pending := managers.Keys;
      while pending != {}
        invariant pending <= managers.Keys
        invariant used <==> exists g, token ::
                              g in managers && g !in pending && token in managers[g]
                              && ManagedGroupName(token) == Some(id)
      {
        var g :| g in pending;
        used := used || exists token :: token in managers[g] && ManagedGroupName(token) == Some(id);
        pending := pending - {g};
      }
    }

    /** The clean-up ending a sync, over the groups in whatever order the map yields them. */
    method DropAbandoned(sourceId: SourceId)
      requires Valid()
      modifies this`groups
      ensures Valid() && groups == CleanedUp(old(groups), Tuples(), managers, sourceId)
    {
      ghost var was := groups;
      var pending := groups.Keys;
      while pending != {}
        invariant pending <= was.Keys && groups.Keys <= was.Keys
        invariant forall g :: g in was ==>
                    (g in groups <==> g in pending || !Abandoned(was, Tuples(), managers, sourceId, g))
        invariant forall g :: g in groups ==> groups[g] == was[g]
      {
        var g :| g in pending;
        pending := pending - {g};
        if groups[g].sourceId == Some(sourceId) && ManagersOf(managers, g) == [] {
          var mentioned := IsMentioned(g);
          var managing := IsManaging(g);
          if !mentioned && !managing {
            groups := groups - {g};
          }
        }
      }
    }

    /** The first half of a sync: what the source has not stored yet is appended, and its groups follow the import. */
    method ImportAll(sourceId: SourceId, pairs: seq<TuplePair>, descriptions: map<string, string>)
      returns (keys: set<Key>, added: nat)
      requires Valid()
      modifies this`groups, this`count, this`data, data
      ensures Valid() && (data == old(data) || fresh(data))
      ensures keys == ImportKeys(pairs)
      ensures groups == ImportedGroups(old(groups), ImportGroups(pairs), descriptions, sourceId)
      ensures var additions := Additions(pairs, SourceKeys(old(Tuples()), sourceId), sourceId);
              Tuples() == old(Tuples()) + additions && added == |additions|
    {
      var existing := KeysOf(sourceId);
      ImportRowsGroups(groups, Tuples(), pairs, existing, descriptions, sourceId);
      ImportRowsTuples(groups, Tuples(), pairs, existing, descriptions, sourceId);
      keys, added := AddImport(sourceId, pairs, existing, descriptions);
    }

    /** The second half: the source's other tuples go, and then its groups nothing is left of. */
    method Prune(sourceId: SourceId, keys: set<Key>) returns (removed: nat)
      requires Valid()
      modifies this`groups, this`count, data
      ensures Valid() && Tuples() == Filter(old(Tuples()), KeptByImport(sourceId, keys))
      ensures groups == CleanedUp(old(groups), Tuples(), managers, sourceId)
      ensures removed == |old(Tuples())| - |Tuples()|
    {
      var before := count;
      Compact(KeptByImport(sourceId, keys));
      removed := before - count;
      DropAbandoned(sourceId);
    }

    /** Replaces every tuple of a source by an import and answers how many were added and removed. */
    method ReplaceTuples(sourceId: SourceId, pairs: seq<TuplePair>, descriptions: map<string, string>)
      returns (added: nat, removed: nat)
      requires Valid()
      modifies this`groups, this`count, this`data, data
      ensures Valid() && (data == old(data) || fresh(data))
      ensures Contents() == Replaced(old(Contents()), sourceId, pairs, descriptions)
      ensures added == |Additions(pairs, SourceKeys(old(Tuples()), sourceId), sourceId)|
      ensures removed == |old(Tuples())| + added - |Tuples()|
    {
      var keys;
      keys, added := ImportAll(sourceId, pairs, descriptions);
      removed := Prune(sourceId, keys);
    }

    // ── The group graph ───────────────────────────────────────────────────────

    /** The live group graph, each edge once however many relations make it, in order. */
    method GroupEdges(now: Instant) returns (edges: seq<Edge>)
      requires Valid()
      ensures Lists(edges, Edges(LiveTuples(Tuples(), now))) && IsSorted(edges, EdgeLeq)
    {
      ghost var E := Edges(LiveTuples(Tuples(), now));
      var out: seq<Edge> := [];
      var seen: set<Edge> := {};
      for i := 0 to count
        invariant Lists(out, seen) && seen <= E
        invariant forall j :: 0 <= j < i && data[j].kind == Subgroup && Live(data[j], now) ==> EdgeOf(data[j]) in seen
      {
        var t := data[i];
        assert t in Tuples();
        if t.kind == Subgroup && Live(t, now) && EdgeOf(t) !in seen {
          ListsMore(out, seen, EdgeOf(t));
          seen, out := seen + {EdgeOf(t)}, out + [EdgeOf(t)];
        }
      }
      assert seen == E;
      edges := Sorted(out, EdgeLeq);
      EdgeLeqTotal();
      SortedIsSorted(out, EdgeLeq);
      ListsPermuted(out, edges, E);
    }

    // ── Resolution ────────────────────────────────────────────────────────────

    /** The pairs granted to the person directly or through a pattern, each once. */
    method SeedPairs(email: string, now: Instant) returns (order: seq<Pair>)
      requires Valid()
      ensures Lists(order, Seeds(LiveTuples(Tuples(), now), email))
    {
      ghost var L := LiveTuples(Tuples(), now);
      var held: set<Pair> := {};
      order := [];
      for i := 0 to count
        invariant Lists(order, held) && held <= Seeds(L, email)
        invariant forall j :: 0 <= j < i && Live(data[j], now) && Names(data[j], email) ==> PairOf(data[j]) in held
      {
        var t := data[i];
        assert t in Tuples();
        if Live(t, now) && Names(t, email) && PairOf(t) !in held {
          ListsMore(order, held, PairOf(t));
          held, order := held + {PairOf(t)}, order + [PairOf(t)];
        }
      }
    }

    /** The pairs holding current passes on that are not held yet, each once. */
    method PassedOn(current: Pair, held: set<Pair>, now: Instant) returns (added: seq<Pair>)
      requires Valid()
      ensures Lists(added, Passed(LiveTuples(Tuples(), now), {current}) - held)
    {
      ghost var L := LiveTuples(Tuples(), now);
      var found: set<Pair> := {};
      added := [];
      for i := 0 to count
        invariant Lists(added, found) && found <= Passed(L, {current}) - held
        invariant forall j :: 0 <= j < i && Live(data[j], now) && Feeds(current, data[j]) ==>
                    PairOf(data[j]) in held + found
      {
        var t := data[i];
        assert t in Tuples();
        if Feeds(current, t) && Live(t, now) && PairOf(t) !in held + found {
          ListsMore(added, found, PairOf(t));
          found, added := found + {PairOf(t)}, added + [PairOf(t)];
        }
      }
    }

    /** The worklist of GetUserTokens: every pair the person holds, once. */
    method HeldPairs(email: string, now: Instant) returns (order: seq<Pair>)
      requires Valid()
      ensures Lists(order, Held(LiveTuples(Tuples(), now), email))
    {
      ghost var L := LiveTuples(Tuples(), now);
      order := SeedPairs(email, now);
      var held := Elements(order);
      var queue := order;
      ghost var done: set<Pair> := {};
      ClimbStarts(L, email, order);
      while queue != []
        invariant Climbing(L, email, order, held, queue, done)
        decreases Granted(L) - held, |queue|
      {
        var added := PassedOn(queue[0], held, now);
        ClimbOn(L, email, order, held, queue, done, added);
        done := done + {queue[0]};
        order, queue, held := order + added, queue[1..] + added, held + Elements(added);
      }
      ClimbEnds(L, email, order, held, done);
    }

    /** The tokens of a person: membership first, one token per group, then the relations beyond it. */
    method GetUserTokens(email: string, now: Instant) returns (tokens: seq<string>)
      requires Valid()
      ensures exists order :: Lists(order, Held(LiveTuples(Tuples(), now), email)) && tokens == Rendered(email, order)
      ensures Elements(tokens) == TokensFor(email, Held(LiveTuples(Tuples(), now), email))
      ensures forall token :: token in tokens <==> AnsweredTo(Tuples(), now, email, token)
    {
      var order := HeldPairs(email, now);
      tokens := Render(email, order);
      RenderedElements(email, order);
      forall token ensures token in Elements(tokens) <==> AnsweredTo(Tuples(), now, email, token) {
        TokensByRule(Tuples(), now, email, token);
      }
    }

    /**
     * One step of GetAllMembers: the entries' tokens not listed yet, and the groups to go on with, repeats included.
     */
    method Visit(step: Pair, seen: set<string>, now: Instant) returns (listed: seq<string>, next: seq<Pair>)
      requires Valid()
      ensures Visited(Entries(LiveTuples(Tuples(), now), step), seen, listed, next)
    {
      ghost var ts := Tuples();
      ghost var T: set<Tuple> := {};
      listed, next := [], [];
      for i := 0 to count
        invariant T == Entries(LiveTuples(ts[..i], now), step) && Visited(T, seen, listed, next)
      {
        var t := data[i];
        EntriesMore(ts, i, now, step);
        if Live(t, now) && IsEntry(step, t) {
          if t.kind == Pattern {
            VisitPattern(T, seen, listed, next, t);
          } else {
            VisitSubject(T, seen, listed, next, t);
            listed := Listing(seen, listed, MemberToken(t.kind, t.subjId, t.subjRel));
            if t.kind == Subgroup {
              next := next + [SubjectPair(t)];
            }
          }
          T := T + {t};
        }
      }
      assert ts[..count] == ts;
    }

    /** Everyone a group counts for a relation, sub-groups resolved, each token once. */
    method GetAllMembers(groupId: string, relation: string, now: Instant) returns (tokens: seq<string>)
      requires Valid()
      ensures Lists(tokens, MemberTokens(LiveTuples(Tuples(), now), Pair(groupId, NormalizeRelation(relation))))
      ensures forall token ::
                token in tokens <==> CountedIn(Tuples(), now, groupId, NormalizeRelation(relation), token)
    {
      ghost var L := LiveTuples(Tuples(), now);
      var start := Pair(groupId, NormalizeRelation(relation));
      var visited: set<Pair> := {};
      var seen: set<string> := {};
      var queue := [start];
      tokens := [];
      ghost var found: set<Tuple> := {};
      WalkStarts(L, start);
      while queue != []
        invariant Walking(L, start, visited, found, seen, tokens, queue)
        decreases Steps(L, start) - visited, |queue|
      {
        var current := queue[0];
        if current in visited {
          WalkPast(L, start, visited, found, seen, tokens, queue);
          queue := queue[1..];
        } else {
          var listed, next := Visit(current, seen, now);
          WalkOn(L, start, visited, found, seen, tokens, queue, listed, next);
          visited, found := visited + {current}, found + Entries(L, current);
          seen, tokens, queue := seen + Elements(listed), tokens + listed, queue[1..] + next;
        }
      }
      WalkEnds(L, start, visited, found, seen, tokens);
      forall token ensures token in Elements(tokens) <==> CountedIn(Tuples(), now, groupId, start.relation, token) {
        MembersByRule(Tuples(), now, groupId, start.relation, token);
      }
    }
  }
}
