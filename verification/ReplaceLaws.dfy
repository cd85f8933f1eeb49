// The diff a sync applies is the plain replacement it stands for
// (internal/storage/memory.go:579-667).
module ReplaceLaws {
  import opened Wrappers
  import opened Sequences
  import opened Tokens
  import opened Tuples
  import opened Transitions

  // ── The additions ───────────────────────────────────────────────────────────

  function KeySet(ts: seq<Tuple>): set<Key> {
    set t | t in ts :: KeyOf(t)
  }

  lemma KeySetConcat(a: seq<Tuple>, b: seq<Tuple>)
    ensures KeySet(a + b) == KeySet(a) + KeySet(b)
  {
  }

  lemma KeySetMore(ts: seq<Tuple>, t: Tuple)
    ensures KeySet(ts + [t]) == KeySet(ts) + {KeyOf(t)}
  {
    KeySetConcat(ts, [t]);
    assert KeySet([t]) == {KeyOf(t)};
  }

  lemma KeySetEmpty(ts: seq<Tuple>)
    ensures ts != [] ==> KeySet(ts) != {}
  {
    if ts != [] {
      assert KeyOf(ts[0]) in KeySet(ts);
    }
  }

  /** Appending a tuple keeps keys unique exactly when its key is new. */
  lemma UniqueKeysMore(ts: seq<Tuple>, t: Tuple)
    requires UniqueKeys(ts)
    ensures UniqueKeys(ts + [t]) <==> KeyOf(t) !in KeySet(ts)
  {
    forall i | 0 <= i < |ts| ensures KeyOf(ts[i]) in KeySet(ts) {
    }
    if KeyOf(t) in KeySet(ts) {
      var u :| u in ts && KeyOf(u) == KeyOf(t);
      var i :| 0 <= i < |ts| && ts[i] == u;
      assert KeyOf((ts + [t])[i]) == KeyOf((ts + [t])[|ts|]);
    }
  }

  /** Concatenating keeps keys unique exactly when the two share none. */
  lemma {:induction false} UniqueKeysConcat(a: seq<Tuple>, b: seq<Tuple>)
    requires UniqueKeys(a) && UniqueKeys(b)
    ensures UniqueKeys(a + b) <==> KeySet(a) !! KeySet(b)
  {
    if b == [] {
      assert a + b == a;
    } else {
      var init, last := b[..|b| - 1], b[|b| - 1];
      assert b == init + [last];
      assert a + b == (a + init) + [last];
      UniqueKeysConcat(a, init);
      UniqueKeysMore(init, last);
      KeySetMore(init, last);
      KeySetConcat(a, init);
      if UniqueKeys(a + init) {
        UniqueKeysMore(a + init, last);
      } else {
        var i, j :| 0 <= i < j < |a + init| && KeyOf((a + init)[i]) == KeyOf((a + init)[j]);
        assert (a + b)[i] == (a + init)[i] && (a + b)[j] == (a + init)[j];
      }
    }
  }

  /** There are as many keys as tuples exactly when no key is there twice. */
  lemma {:induction false} UniqueKeysCount(ts: seq<Tuple>)
    ensures |KeySet(ts)| <= |ts|
    ensures |KeySet(ts)| == |ts| <==> UniqueKeys(ts)
  {
    if ts != [] {
      var init, last := ts[..|ts| - 1], ts[|ts| - 1];
      assert ts == init + [last];
      UniqueKeysCount(init);
      KeySetMore(init, last);
      if UniqueKeys(init) {
        UniqueKeysMore(init, last);
      } else {
        var i, j :| 0 <= i < j < |init| && KeyOf(init[i]) == KeyOf(init[j]);
        assert KeyOf(ts[i]) == KeyOf(ts[j]);
      }
    }
  }

  lemma SameKeySameTuple(ts: seq<Tuple>, t: Tuple, u: Tuple)
    requires UniqueKeys(ts) && t in ts && u in ts
    ensures KeyOf(t) == KeyOf(u) ==> t == u
  {
    var i :| 0 <= i < |ts| && ts[i] == t;
    var j :| 0 <= j < |ts| && ts[j] == u;
  }

  lemma NewTupleKey(k: Key, sourceId: Option<SourceId>, expires: Option<Instant>)
    ensures KeyOf(NewTuple(k, sourceId, expires)) == k
  {
  }

  /** How one more key adds to what is new; the sets are all that matters. */
  lemma NewKeysMore(keys: set<Key>, existing: set<Key>, k: Key)
    ensures (keys + {k}) - existing
         == if k in existing || k in keys then keys - existing else (keys - existing) + {k}
  {
  }

  /** One tuple of the source per key the import has and the source had not. */
  lemma {:induction false} AdditionsAreNewKeys(pairs: seq<TuplePair>, existing: set<Key>, sourceId: SourceId)
    ensures var additions := Additions(pairs, existing, sourceId);
            KeySet(additions) == ImportKeys(pairs) - existing && UniqueKeys(additions)
  {
    if pairs != [] {
      var init, p := pairs[..|pairs| - 1], pairs[|pairs| - 1];
      AdditionsAreNewKeys(init, existing, sourceId);
      assert pairs == init + [p];
      KeysOneMore(init, p);
      var k, before := PairKey(p), Additions(init, existing, sourceId);
      NewKeysMore(ImportKeys(init), existing, k);
      if k in existing || k in ImportKeys(init) {
        assert Additions(pairs, existing, sourceId) == before;
      } else {
        var t := NewTuple(k, Some(sourceId), None);
        NewTupleKey(k, Some(sourceId), None);
        assert Additions(pairs, existing, sourceId) == before + [t];
        KeySetMore(before, t);
        UniqueKeysMore(before, t);
      }
    }
  }

  lemma {:induction false} AdditionsOwned(pairs: seq<TuplePair>, existing: set<Key>, sourceId: SourceId)
    ensures forall t :: t in Additions(pairs, existing, sourceId) ==> t.sourceId == Some(sourceId) && t.expires == None
  {
    if pairs != [] {
      AdditionsOwned(pairs[..|pairs| - 1], existing, sourceId);
    }
  }

  // ── The tuples after a sync ─────────────────────────────────────────────────

  /** What an import keeps of the old list, and what it adds behind it. */
  lemma ImportedSplits(ts: seq<Tuple>, pairs: seq<TuplePair>, sourceId: SourceId)
    ensures ImportedTuples(ts, pairs, sourceId)
         == Filter(ts, KeptByImport(sourceId, ImportKeys(pairs)))
            + Additions(pairs, SourceKeys(ts, sourceId), sourceId)
  {
    var additions := Additions(pairs, SourceKeys(ts, sourceId), sourceId);
    AdditionsAreNewKeys(pairs, SourceKeys(ts, sourceId), sourceId);
    AdditionsOwned(pairs, SourceKeys(ts, sourceId), sourceId);
    var keep := KeptByImport(sourceId, ImportKeys(pairs));
    FilterConcat(ts, additions, keep);
    forall t | t in additions ensures keep(t) {
      assert KeyOf(t) in KeySet(additions);
    }
    FilterAll(additions, keep);
  }

  /** Afterwards the source has exactly the keys of the import. */
  lemma ImportedKeys(ts: seq<Tuple>, pairs: seq<TuplePair>, sourceId: SourceId)
    ensures SourceKeys(ImportedTuples(ts, pairs, sourceId), sourceId) == ImportKeys(pairs)
  {
    var ts' := ImportedTuples(ts, pairs, sourceId);
    var additions := Additions(pairs, SourceKeys(ts, sourceId), sourceId);
    FilterElements(ts + additions, KeptByImport(sourceId, ImportKeys(pairs)));
    AdditionsAreNewKeys(pairs, SourceKeys(ts, sourceId), sourceId);
    AdditionsOwned(pairs, SourceKeys(ts, sourceId), sourceId);
    forall k | k in ImportKeys(pairs) ensures k in SourceKeys(ts', sourceId) {
      if k in SourceKeys(ts, sourceId) {
        var t :| t in ts && t.sourceId == Some(sourceId) && KeyOf(t) == k;
        assert t in ts';
      } else {
        assert k in KeySet(additions);
        var t :| t in additions && KeyOf(t) == k;
        assert t in ts';
      }
    }
  }

  /** Other sources' tuples keep value and order. */
  lemma OthersUntouched(ts: seq<Tuple>, pairs: seq<TuplePair>, sourceId: SourceId)
    ensures Filter(ImportedTuples(ts, pairs, sourceId), NotOwnedBy(sourceId)) == Filter(ts, NotOwnedBy(sourceId))
  {
    var keep, other := KeptByImport(sourceId, ImportKeys(pairs)), NotOwnedBy(sourceId);
    var additions := Additions(pairs, SourceKeys(ts, sourceId), sourceId);
    ImportedSplits(ts, pairs, sourceId);
    AdditionsOwned(pairs, SourceKeys(ts, sourceId), sourceId);
    FilterConcat(Filter(ts, keep), additions, other);
    FilterNone(additions, other);
    FilterWeaker(ts, keep, other);
  }

  /** A tuple of the source the import still lists stays as it is, expiry included. */
  lemma KeptAsIs(ts: seq<Tuple>, pairs: seq<TuplePair>, sourceId: SourceId, t: Tuple)
    requires t in ts && KeyOf(t) in ImportKeys(pairs)
    ensures t in ImportedTuples(ts, pairs, sourceId)
  {
    var all := ts + Additions(pairs, SourceKeys(ts, sourceId), sourceId);
    FilterElements(all, KeptByImport(sourceId, ImportKeys(pairs)));
    assert t in all;
  }

  function Dropped(sourceId: SourceId, keys: set<Key>): Tuple -> bool {
    (t: Tuple) => t.sourceId == Some(sourceId) && KeyOf(t) !in keys
  }

  lemma DroppedKeys(ts: seq<Tuple>, keys: set<Key>, sourceId: SourceId)
    ensures KeySet(Filter(ts, Dropped(sourceId, keys))) == SourceKeys(ts, sourceId) - keys
  {
    var dropped := Filter(ts, Dropped(sourceId, keys));
    FilterElements(ts, Dropped(sourceId, keys));
    forall k | k in SourceKeys(ts, sourceId) - keys ensures k in KeySet(dropped) {
      var t :| t in ts && t.sourceId == Some(sourceId) && KeyOf(t) == k;
      assert t in dropped;
    }
  }

  /**
   * The counts a sync reports: what it adds is always the import's keys the source had not; what it removes is the
   * source's keys the import has not exactly when none of those was stored twice.
   */
  lemma CountsAreDifferences(ts: seq<Tuple>, pairs: seq<TuplePair>, sourceId: SourceId)
    ensures var existing := SourceKeys(ts, sourceId);
            var added := |Additions(pairs, existing, sourceId)|;
            var removed := |ts| + added - |ImportedTuples(ts, pairs, sourceId)|;
            added == |ImportKeys(pairs) - existing|
            && (removed == |existing - ImportKeys(pairs)|
                <==> UniqueKeys(Filter(ts, Dropped(sourceId, ImportKeys(pairs)))))
  {
    var existing, keys := SourceKeys(ts, sourceId), ImportKeys(pairs);
    AdditionsAreNewKeys(pairs, existing, sourceId);
    UniqueKeysCount(Additions(pairs, existing, sourceId));
    ImportedSplits(ts, pairs, sourceId);
    FilterSizes(ts, KeptByImport(sourceId, keys), Dropped(sourceId, keys));
    DroppedKeys(ts, keys, sourceId);
    UniqueKeysCount(Filter(ts, Dropped(sourceId, keys)));
  }

  /** A key the source stores twice is dropped twice: it counts two removals where one key went. */
  lemma RemovedTwice(t: Tuple, sourceId: SourceId)
    requires t.sourceId == Some(sourceId)
    ensures var ts := [t, t];
            SourceKeys(ts, sourceId) == {KeyOf(t)}
            && |ts| + |Additions([], {KeyOf(t)}, sourceId)| - |ImportedTuples(ts, [], sourceId)| == 2
  {
    var ts := [t, t];
    assert t in ts;
    assert SourceKeys(ts, sourceId) == {KeyOf(t)};
    FilterNone(ts + [], KeptByImport(sourceId, ImportKeys([])));
  }

  lemma ForeignNotExisting(ts: seq<Tuple>, sourceId: SourceId, t: Tuple)
    requires UniqueKeys(ts) && t in ts && t.sourceId != Some(sourceId)
    ensures KeyOf(t) !in SourceKeys(ts, sourceId)
  {
    forall u | u in ts && u.sourceId == Some(sourceId)
      ensures KeyOf(u) != KeyOf(t)
    {
      SameKeySameTuple(ts, t, u);
    }
  }

  /** Keys stay unique over all sources exactly when no other source stores a key of the import. */
  lemma UniqueIffNotForeign(ts: seq<Tuple>, pairs: seq<TuplePair>, sourceId: SourceId)
    requires UniqueKeys(ts)
    ensures UniqueKeys(ImportedTuples(ts, pairs, sourceId))
            <==> forall t :: t in ts && t.sourceId != Some(sourceId) ==> KeyOf(t) !in ImportKeys(pairs)
  {
    var existing, keys := SourceKeys(ts, sourceId), ImportKeys(pairs);
    var kept := Filter(ts, KeptByImport(sourceId, keys));
    ImportedSplits(ts, pairs, sourceId);
    FilterElements(ts, KeptByImport(sourceId, keys));
    AdditionsAreNewKeys(pairs, existing, sourceId);
    FilterKeepsUniqueKeys(ts, KeptByImport(sourceId, keys));
    UniqueKeysConcat(kept, Additions(pairs, existing, sourceId));
    forall t | t in ts && t.sourceId != Some(sourceId)
      ensures KeyOf(t) in KeySet(kept) && KeyOf(t) !in existing
    {
      ForeignNotExisting(ts, sourceId, t);
      assert t in kept;
    }
    forall k | k in KeySet(kept) && k !in existing
      ensures exists t :: t in ts && t.sourceId != Some(sourceId) && KeyOf(t) == k
    {
      var t :| t in kept && KeyOf(t) == k;
    }
  }

  // ── Running the same import again ───────────────────────────────────────────

  lemma NoAdditionsAgain(pairs: seq<TuplePair>, existing: set<Key>, sourceId: SourceId)
    requires ImportKeys(pairs) <= existing
    ensures Additions(pairs, existing, sourceId) == []
  {
    AdditionsAreNewKeys(pairs, existing, sourceId);
    KeySetEmpty(Additions(pairs, existing, sourceId));
  }

  lemma ImportedTwice(ts: seq<Tuple>, pairs: seq<TuplePair>, sourceId: SourceId)
    ensures var ts' := ImportedTuples(ts, pairs, sourceId);
            Additions(pairs, SourceKeys(ts', sourceId), sourceId) == []
            && ImportedTuples(ts', pairs, sourceId) == ts'
  {
    var ts' := ImportedTuples(ts, pairs, sourceId);
    ImportedKeys(ts, pairs, sourceId);
    NoAdditionsAgain(pairs, SourceKeys(ts', sourceId), sourceId);
    assert ts' + [] == ts';
    FilterAll(ts', KeptByImport(sourceId, ImportKeys(pairs)));
  }

  /** A group the import fills is never abandoned. */
  lemma FilledGroupInUse(ts: seq<Tuple>, pairs: seq<TuplePair>, managers: map<string, seq<string>>, sourceId: SourceId,
                         id: string)
    requires id in ImportGroups(pairs)
    ensures InUse(ImportedTuples(ts, pairs, sourceId), managers, id)
  {
    var ts' := ImportedTuples(ts, pairs, sourceId);
    ImportedKeys(ts, pairs, sourceId);
    var p :| p in pairs && p.groupId == id;
    assert PairKey(p) in SourceKeys(ts', sourceId);
    var t :| t in ts' && t.sourceId == Some(sourceId) && KeyOf(t) == PairKey(p);
    assert Mentions(t, id);
  }

  lemma GroupsImportedTwice(st: State, sourceId: SourceId, pairs: seq<TuplePair>, descriptions: map<string, string>)
    ensures var once := Replaced(st, sourceId, pairs, descriptions);
            ImportedGroups(once.groups, ImportGroups(pairs), descriptions, sourceId) == once.groups
  {
    var once := Replaced(st, sourceId, pairs, descriptions);
    forall id | id in ImportGroups(pairs) ensures id in once.groups {
      FilledGroupInUse(st.tuples, pairs, st.managers, sourceId, id);
    }
  }

  lemma CleanedUpTwice(groups: map<string, Group>, tuples: seq<Tuple>, managers: map<string, seq<string>>,
                       sourceId: SourceId)
    ensures var once := CleanedUp(groups, tuples, managers, sourceId);
            CleanedUp(once, tuples, managers, sourceId) == once
  {
  }

  /** The same import again adds nothing, removes nothing and leaves the whole state alone. */
  lemma ReplaceTwice(st: State, sourceId: SourceId, pairs: seq<TuplePair>, descriptions: map<string, string>)
    ensures var once := Replaced(st, sourceId, pairs, descriptions);
            Replaced(once, sourceId, pairs, descriptions) == once
            && |Additions(pairs, SourceKeys(once.tuples, sourceId), sourceId)| == 0
  {
    ImportedTwice(st.tuples, pairs, sourceId);
    GroupsImportedTwice(st, sourceId, pairs, descriptions);
    CleanedUpTwice(ImportedGroups(st.groups, ImportGroups(pairs), descriptions, sourceId),
                   ImportedTuples(st.tuples, pairs, sourceId), st.managers, sourceId);
  }

  // ── The clean-up ────────────────────────────────────────────────────────────

  /**
   * A sync deletes exactly the source's groups with no entry, no entry naming them, no manager and no manager token
   * naming them.
   */
  lemma DeletedExactly(st: State, sourceId: SourceId, pairs: seq<TuplePair>, descriptions: map<string, string>,
                       id: string)
    requires id in st.groups
    ensures var after := Replaced(st, sourceId, pairs, descriptions);
            id !in after.groups <==>
              st.groups[id].sourceId == Some(sourceId)
              && (forall t :: t in after.tuples ==> !Mentions(t, id))
              && ManagersOf(st.managers, id) == []
              && (forall g, token :: g in st.managers && token in st.managers[g] ==>
                    ManagedGroupName(token) != Some(id))
  {
  }

  /** Every group a sync knew or was given is there afterwards unless it was abandoned; the owner never changes. */
  lemma OwnersKept(st: State, sourceId: SourceId, pairs: seq<TuplePair>, descriptions: map<string, string>, id: string)
    ensures var after := Replaced(st, sourceId, pairs, descriptions);
            (id in after.groups ==>
              after.groups[id].sourceId == if id in st.groups then st.groups[id].sourceId else Some(sourceId))
            && (id in ImportGroups(pairs) ==> id in after.groups)
            && (id in after.groups ==> id in st.groups || id in ImportGroups(pairs))
  {
    if id in ImportGroups(pairs) {
      FilledGroupInUse(st.tuples, pairs, st.managers, sourceId, id);
    }
  }
}
