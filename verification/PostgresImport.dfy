// ReplaceTuples on a table with a unique index (internal/storage/postgres.go:825-968):
// the same diff, with inserts that conflict left out in silence.
module PostgresImport {
  import opened Wrappers
  import opened Sequences
  import opened Tuples
  import opened Transitions
  import opened ReplaceLaws
  import opened Tokens
  import opened Validate
  import opened Postgres

  /** What a row holds besides its key. */
  datatype Row = Row(sourceId: Option<SourceId>, expires: Option<Instant>)

  /** The unique index makes the table a map from keys. */
  type Table = map<Key, Row>

  function RowOf(t: Tuple): Row {
    Row(t.sourceId, t.expires)
  }

  /** The list as a table; keys are unique, so the first tuple of a key is the only one. */
  function TableOf(ts: seq<Tuple>): Table {
    map k | k in KeySet(ts) :: if IndexOf(ts, k) < |ts| then RowOf(ts[IndexOf(ts, k)]) else Row(None, None)
  }

  function OwnKeys(rows: Table, sourceId: SourceId): set<Key> {
    set k | k in rows && rows[k].sourceId == Some(sourceId)
  }

  /** Keys of the import another source has a row for. */
  function Conflicts(rows: Table, sourceId: SourceId, keys: set<Key>): set<Key> {
    set k | k in keys && k in rows && rows[k].sourceId != Some(sourceId)
  }

  /** ON CONFLICT DO NOTHING. */
  function Inserted(rows: Table, keys: set<Key>, sourceId: SourceId): Table {
    map k | k in rows.Keys + keys :: if k in rows then rows[k] else Row(Some(sourceId), None)
  }

  function ReplacedRows(rows: Table, sourceId: SourceId, keys: set<Key>): Table {
    Inserted(rows - (OwnKeys(rows, sourceId) - keys), keys - OwnKeys(rows, sourceId), sourceId)
  }

  /** Deletes in chunks, so that no statement names too many rows. */
  method DeleteInBatches(rows: Table, keys: seq<Key>, batchSize: nat) returns (out: Table)
    requires batchSize > 0
    ensures out == rows - Elements(keys)
  {
    out := rows;
    var i := 0;
    while i < |keys|
      invariant i <= |keys| && out == rows - Elements(keys[..i])
    {
      var end := if i + batchSize > |keys| then |keys| else i + batchSize;
      assert keys[..end] == keys[..i] + keys[i..end];
      ElementsConcat(keys[..i], keys[i..end]);
      out := out - Elements(keys[i..end]);
      i := end;
    }
    assert keys[..i] == keys;
  }

  /**
   * The transaction, with the counts it reports; obsolete lists the rows to go in whatever order the map yields them.
   */
  method ReplaceRows(rows: Table, sourceId: SourceId, keys: set<Key>, obsolete: seq<Key>)
    returns (out: Table, added: nat, removed: nat)
    requires Lists(obsolete, OwnKeys(rows, sourceId) - keys)
    ensures out == ReplacedRows(rows, sourceId, keys)
    ensures added == |keys - OwnKeys(rows, sourceId)| && removed == |OwnKeys(rows, sourceId) - keys|
  {
    var toInsert := keys - OwnKeys(rows, sourceId);
    out := DeleteInBatches(rows, obsolete, 500);
    out := Inserted(out, toInsert, sourceId);
    added, removed := |toInsert|, |obsolete|;
    ListsCount(obsolete, OwnKeys(rows, sourceId) - keys);
  }

  // ── Against the memory store ────────────────────────────────────────────────

  lemma TableEntry(ts: seq<Tuple>, t: Tuple)
    requires UniqueKeys(ts) && t in ts
    ensures KeyOf(t) in TableOf(ts) && TableOf(ts)[KeyOf(t)] == RowOf(t)
  {
    var i := IndexOf(ts, KeyOf(t));
    var j :| 0 <= j < |ts| && ts[j] == t;
    assert i < |ts|;
    assert ts[i] in ts;
    SameKeySameTuple(ts, ts[i], t);
  }

  lemma TableKeyed(ts: seq<Tuple>, k: Key) returns (t: Tuple)
    requires UniqueKeys(ts) && k in TableOf(ts)
    ensures t in ts && KeyOf(t) == k && TableOf(ts)[k] == RowOf(t)
  {
    t :| t in ts && KeyOf(t) == k;
    TableEntry(ts, t);
  }

  lemma OwnKeysAgree(ts: seq<Tuple>, sourceId: SourceId)
    requires UniqueKeys(ts)
    ensures OwnKeys(TableOf(ts), sourceId) == SourceKeys(ts, sourceId)
  {
    forall k | k in OwnKeys(TableOf(ts), sourceId) ensures k in SourceKeys(ts, sourceId) {
      var t := TableKeyed(ts, k);
    }
    forall k | k in SourceKeys(ts, sourceId) ensures k in OwnKeys(TableOf(ts), sourceId) {
      var t :| t in ts && t.sourceId == Some(sourceId) && KeyOf(t) == k;
      TableEntry(ts, t);
    }
  }

  /** A row of the memory store's result is a row of the table's. */
  lemma RowAgrees(ts: seq<Tuple>, pairs: seq<TuplePair>, sourceId: SourceId, t: Tuple)
    requires UniqueKeys(ts) && UniqueKeys(ImportedTuples(ts, pairs, sourceId))
    requires t in ImportedTuples(ts, pairs, sourceId)
    ensures var rows := ReplacedRows(TableOf(ts), sourceId, ImportKeys(pairs));
            KeyOf(t) in rows && rows[KeyOf(t)] == RowOf(t)
  {
    var additions := Additions(pairs, SourceKeys(ts, sourceId), sourceId);
    OwnKeysAgree(ts, sourceId);
    FilterElements(ts + additions, KeptByImport(sourceId, ImportKeys(pairs)));
    AdditionsAreNewKeys(pairs, SourceKeys(ts, sourceId), sourceId);
    AdditionsOwned(pairs, SourceKeys(ts, sourceId), sourceId);
    if t in ts {
      TableEntry(ts, t);
    } else {
      assert KeyOf(t) in KeySet(additions);
      AdditionKeyUnstored(ts, pairs, sourceId, t);
    }
  }

  /** With keys unique afterwards, an added key was not stored before. */
  lemma AdditionKeyUnstored(ts: seq<Tuple>, pairs: seq<TuplePair>, sourceId: SourceId, t: Tuple)
    requires UniqueKeys(ts) && UniqueKeys(ImportedTuples(ts, pairs, sourceId))
    requires t in Additions(pairs, SourceKeys(ts, sourceId), sourceId)
    ensures KeyOf(t) !in KeySet(ts)
  {
    UniqueIffNotForeign(ts, pairs, sourceId);
    AdditionsAreNewKeys(pairs, SourceKeys(ts, sourceId), sourceId);
    assert KeyOf(t) in KeySet(Additions(pairs, SourceKeys(ts, sourceId), sourceId));
    forall u | u in ts ensures KeyOf(u) != KeyOf(t) {
    }
  }

  /** A key of the table's result is a key of the memory store's. */
  lemma KeyAgrees(ts: seq<Tuple>, pairs: seq<TuplePair>, sourceId: SourceId, k: Key)
    requires UniqueKeys(ts) && k in ReplacedRows(TableOf(ts), sourceId, ImportKeys(pairs))
    ensures k in TableOf(ImportedTuples(ts, pairs, sourceId))
  {
    var ts' := ImportedTuples(ts, pairs, sourceId);
    if k in ImportKeys(pairs) {
      ImportedKeys(ts, pairs, sourceId);
      assert k in SourceKeys(ts', sourceId);
    } else {
      OwnKeysAgree(ts, sourceId);
      var t := TableKeyed(ts, k);
      FilterElements(ts + Additions(pairs, SourceKeys(ts, sourceId), sourceId),
                     KeptByImport(sourceId, ImportKeys(pairs)));
      assert t in ts';
    }
  }

  /**
   * Where no other source stores a key of the import, which the engine's guard sees to, both stores end with the same
   * rows.
   */
  lemma StoresAgree(ts: seq<Tuple>, pairs: seq<TuplePair>, sourceId: SourceId)
    requires UniqueKeys(ts)
    requires forall t :: t in ts && t.sourceId != Some(sourceId) ==> KeyOf(t) !in ImportKeys(pairs)
    ensures TableOf(ImportedTuples(ts, pairs, sourceId)) == ReplacedRows(TableOf(ts), sourceId, ImportKeys(pairs))
  {
    var ts', keys := ImportedTuples(ts, pairs, sourceId), ImportKeys(pairs);
    var rows := ReplacedRows(TableOf(ts), sourceId, keys);
    UniqueIffNotForeign(ts, pairs, sourceId);
    forall k | k in TableOf(ts') ensures k in rows && rows[k] == TableOf(ts')[k] {
      var t := TableKeyed(ts', k);
      RowAgrees(ts, pairs, sourceId, t);
    }
    forall k | k in rows ensures k in TableOf(ts') {
      KeyAgrees(ts, pairs, sourceId, k);
    }
  }

  /** The table never lets the source have a key another one holds: of the import it gets the rest. */
  lemma OwnKeysAfter(rows: Table, sourceId: SourceId, keys: set<Key>)
    ensures OwnKeys(ReplacedRows(rows, sourceId, keys), sourceId) == keys - Conflicts(rows, sourceId, keys)
    ensures Conflicts(ReplacedRows(rows, sourceId, keys), sourceId, keys) == Conflicts(rows, sourceId, keys)
  {
  }

  lemma ReplacedAgain(rows: Table, sourceId: SourceId, keys: set<Key>)
    ensures var after := ReplacedRows(rows, sourceId, keys);
            ReplacedRows(after, sourceId, keys) == after
  {
    var after := ReplacedRows(rows, sourceId, keys);
    OwnKeysAfter(rows, sourceId, keys);
    assert OwnKeys(after, sourceId) - keys == {};
    assert after - {} == after;
    forall k | k in keys ensures k in after {
    }
    assert Inserted(after, keys - OwnKeys(after, sourceId), sourceId) == after;
  }

  /**
   * Running the same import again changes nothing, but reports every conflicting row as added once more: (0, 0) exactly
   * when there is none.
   */
  lemma SecondRunReports(rows: Table, sourceId: SourceId, keys: set<Key>)
    ensures var after := ReplacedRows(rows, sourceId, keys);
            |keys - OwnKeys(after, sourceId)| == |Conflicts(rows, sourceId, keys)|
            && OwnKeys(after, sourceId) - keys == {}
  {
    OwnKeysAfter(rows, sourceId, keys);
    var conflicts := Conflicts(rows, sourceId, keys);
    assert keys - (keys - conflicts) == conflicts;
  }

  /** One row of another source is enough: the import that names its key reports an addition on every run. */
  lemma ReportedAgain(k: Key, owner: SourceId, sourceId: SourceId)
    requires owner != sourceId
    ensures var rows: Table := map[k := Row(Some(owner), None)];
            ReplacedRows(rows, sourceId, {k}) == rows && |{k} - OwnKeys(rows, sourceId)| == 1
  {
    var rows: Table := map[k := Row(Some(owner), None)];
    assert OwnKeys(rows, sourceId) == {};
    assert Inserted(rows, {k}, sourceId) == rows;
    assert rows - ({} - {k}) == rows;
  }

  // ── Groups ──────────────────────────────────────────────────────────────────

  /** INSERT of a missing group, ON CONFLICT DO NOTHING. */
  function InsertedGroups(groups: map<string, Group>, ids: set<string>, descriptions: map<string, string>,
                          sourceId: SourceId): map<string, Group> {
    map id | id in groups.Keys + ids ::
      if id in groups then groups[id] else Group(id, DescriptionOf(descriptions, id), Some(sourceId))
  }

  /** UPDATE of one group's description where it differs. */
  function Described(groups: map<string, Group>, id: string, description: string): map<string, Group> {
    if id in groups && groups[id].description != description then groups[id := groups[id].(description := description)]
    else groups
  }

  /**
   * The group rows of an import: missing ones inserted together, then the descriptions of those that were there, one by
   * one in any order.
   */
  method ImportGroupRows(groups: map<string, Group>, needed: set<string>, descriptions: map<string, string>,
                         sourceId: SourceId)
    returns (out: map<string, Group>)
    ensures out == ImportedGroups(groups, needed, descriptions, sourceId)
  {
    var existing := needed * groups.Keys;
    var inserted := InsertedGroups(groups, needed - existing, descriptions, sourceId);
    out := inserted;
    var pending := existing;
    while pending != {}
      invariant pending <= existing && out.Keys == inserted.Keys
      invariant forall id :: id in out ==> out[id] == GroupSoFar(inserted, existing - pending, descriptions, id)
    {
      var id :| id in pending;
      if id in descriptions {
        out := Described(out, id, descriptions[id]);
      }
      pending := pending - {id};
    }
    assert existing - pending == existing;
  }

  /** A group row when those in `done` have been looked at. */
  function GroupSoFar(inserted: map<string, Group>, done: set<string>, descriptions: map<string, string>,
                      id: string): Group
    requires id in inserted
  {
    if id in done && id in descriptions then inserted[id].(description := descriptions[id]) else inserted[id]
  }

  /** Some row has the group on either side. */
  predicate KeyMentions(k: Key, id: string) {
    k.objId == id || (k.kind == Subgroup && k.subjId == id)
  }

  /** The condition of the DELETE that ends the transaction. */
  predicate AbandonedRow(groups: map<string, Group>, rows: Table, managers: map<string, seq<string>>,
                         sourceId: SourceId, id: string) {
    id in groups && groups[id].sourceId == Some(sourceId)
    && !(exists k :: k in rows && KeyMentions(k, id))
    && !(id in managers && managers[id] != [])
    && !(exists g, token :: g in managers && token in managers[g] && LikeNames(id, token))
  }

  function CleanedRows(groups: map<string, Group>, rows: Table, managers: map<string, seq<string>>,
                       sourceId: SourceId): map<string, Group> {
    map id | id in groups && !AbandonedRow(groups, rows, managers, sourceId, id) :: groups[id]
  }

  /** On the rows of a list the DELETE asks what the clean-up with LIKE asks of the list. */
  lemma AbandonedOnRows(groups: map<string, Group>, ts: seq<Tuple>, managers: map<string, seq<string>>,
                        sourceId: SourceId, id: string)
    ensures AbandonedRow(groups, TableOf(ts), managers, sourceId, id)
            <==> AbandonedLike(groups, ts, managers, sourceId, id)
  {
    if t :| t in ts && Mentions(t, id) {
      assert KeyOf(t) in TableOf(ts) && KeyMentions(KeyOf(t), id);
    }
    if k :| k in TableOf(ts) && KeyMentions(k, id) {
      var t :| t in ts && KeyOf(t) == k;
      assert Mentions(t, id);
    }
  }

  /** No group the memory store keeps is missing on Postgres, and those both have are the same. */
  lemma GroupsKept(st: State, sourceId: SourceId, pairs: seq<TuplePair>, descriptions: map<string, string>, id: string)
    requires UniqueKeys(st.tuples)
    requires forall t :: t in st.tuples && t.sourceId != Some(sourceId) ==> KeyOf(t) !in ImportKeys(pairs)
    requires ValidGroupId(id)
    ensures var groups := ImportedGroups(st.groups, ImportGroups(pairs), descriptions, sourceId);
            var rows := ReplacedRows(TableOf(st.tuples), sourceId, ImportKeys(pairs));
            var table := CleanedRows(groups, rows, st.managers, sourceId);
            var memory := Replaced(st, sourceId, pairs, descriptions).groups;
            (id in memory ==> id in table && table[id] == memory[id])
            && ('_' !in id && id in table ==> id in memory && memory[id] == table[id])
  {
    var groups := ImportedGroups(st.groups, ImportGroups(pairs), descriptions, sourceId);
    var ts := ImportedTuples(st.tuples, pairs, sourceId);
    StoresAgree(st.tuples, pairs, sourceId);
    AbandonedOnRows(groups, ts, st.managers, sourceId, id);
    if AbandonedLike(groups, ts, st.managers, sourceId, id) {
      CleanUpKeepsMore(groups, ts, st.managers, sourceId, id);
    }
    if '_' !in id {
      CleanUpSame(groups, ts, st.managers, sourceId, id);
    }
  }

  /** The whole transaction on groups. */
  method ReplaceGroups(groups: map<string, Group>, rows: Table, managers: map<string, seq<string>>, needed: set<string>,
                       descriptions: map<string, string>, sourceId: SourceId) returns (out: map<string, Group>)
    ensures out == CleanedRows(ImportedGroups(groups, needed, descriptions, sourceId), rows, managers, sourceId)
  {
    var imported := ImportGroupRows(groups, needed, descriptions, sourceId);
    out := CleanedRows(imported, rows, managers, sourceId);
  }
}
