// What adding, removing and changing one entry leaves in a list of unique keys,
// and which of these calls undo each other (internal/storage/memory.go:205-271).
module EntryLaws {
  import opened Wrappers
  import opened Sequences
  import opened Tuples
  import opened Transitions
  import opened ReplaceLaws

  lemma IndexOfKey(ts: seq<Tuple>, i: nat)
    requires UniqueKeys(ts) && i < |ts|
    ensures IndexOf(ts, KeyOf(ts[i])) == i
  {
  }

  lemma IndexOfStored(ts: seq<Tuple>, k: Key)
    ensures IndexOf(ts, k) < |ts| <==> k in KeySet(ts)
  {
    if k in KeySet(ts) {
      var t :| t in ts && KeyOf(t) == k;
      var i :| 0 <= i < |ts| && ts[i] == t;
    } else {
      assert forall i :: 0 <= i < |ts| ==> ts[i] in ts;
    }
  }

  /** The entry at a key, if there is one. */
  function EntryAt(ts: seq<Tuple>, k: Key): Option<Tuple> {
    var i := IndexOf(ts, k);
    if i < |ts| then Some(ts[i]) else None
  }

  /** Writing one position changes the entry at its old and its new key, and no other. */
  lemma WrittenEntry(ts: seq<Tuple>, i: nat, t: Tuple, k: Key)
    requires UniqueKeys(ts) && i < |ts| && UniqueKeys(ts[i := t])
    ensures EntryAt(ts[i := t], k)
         == if k == KeyOf(t) then Some(t) else if k == KeyOf(ts[i]) then None else EntryAt(ts, k)
  {
    var ts' := ts[i := t];
    var j, j' := IndexOf(ts, k), IndexOf(ts', k);
    if k == KeyOf(t) {
      IndexOfKey(ts', i);
    } else if k == KeyOf(ts[i]) {
      forall n | 0 <= n < |ts| ensures KeyOf(ts'[n]) != k {
        assert n != i ==> ts'[n] == ts[n];
      }
    } else {
      assert j < |ts| ==> ts'[j] == ts[j];
      assert j' < |ts'| ==> ts[j'] == ts'[j'];
    }
  }

  /** Where an element of the longer list is found in the shorter one, and back. */
  function Shifted(n: nat, i: nat): nat {
    if n < i then n else n + 1
  }

  lemma DroppedUnique(ts: seq<Tuple>, i: nat)
    requires UniqueKeys(ts) && i < |ts|
    ensures UniqueKeys(Without(ts, i))
    ensures forall n :: 0 <= n < |ts| - 1 ==> Without(ts, i)[n] == ts[Shifted(n, i)]
  {
    var ts' := Without(ts, i);
    forall a, b | 0 <= a < b < |ts'| ensures KeyOf(ts'[a]) != KeyOf(ts'[b]) {
      assert ts'[a] == ts[Shifted(a, i)] && ts'[b] == ts[Shifted(b, i)];
    }
  }

  /** A key other than the dropped one is still found. */
  lemma StillStored(ts: seq<Tuple>, i: nat, k: Key)
    requires UniqueKeys(ts) && i < |ts| && IndexOf(ts, k) < |ts| && k != KeyOf(ts[i])
    ensures IndexOf(Without(ts, i), k) < |ts| - 1
  {
    var j := IndexOf(ts, k);
    DroppedUnique(ts, i);
    assert KeyOf(Without(ts, i)[if j < i then j else j - 1]) == k;
  }

  /** Dropping one position drops the entry at its key, and no other. */
  lemma DroppedEntry(ts: seq<Tuple>, i: nat, k: Key)
    requires UniqueKeys(ts) && i < |ts|
    ensures EntryAt(Without(ts, i), k) == if k == KeyOf(ts[i]) then None else EntryAt(ts, k)
  {
    var ts' := Without(ts, i);
    DroppedUnique(ts, i);
    var j' := IndexOf(ts', k);
    if j' < |ts'| {
      assert KeyOf(ts[Shifted(j', i)]) == k;
      IndexOfKey(ts, Shifted(j', i));
    } else if k != KeyOf(ts[i]) && IndexOf(ts, k) < |ts| {
      StillStored(ts, i, k);
    }
  }

  // ── AddMember and RemoveMember ──────────────────────────────────────────────

  lemma UpsertUnique(ts: seq<Tuple>, k: Key, sourceId: Option<SourceId>, expires: Option<Instant>)
    requires UniqueKeys(ts)
    ensures UniqueKeys(Upsert(ts, k, sourceId, expires))
  {
    if IndexOf(ts, k) == |ts| {
      IndexOfStored(ts, k);
      UniqueKeysMore(ts, NewTuple(k, sourceId, expires));
    }
  }

  /**
   * Adding a member leaves one entry at its key, with the expiry given and the source it had, if it was there; every
   * other entry stays.
   */
  lemma AddedEntry(ts: seq<Tuple>, k: Key, sourceId: Option<SourceId>, expires: Option<Instant>, other: Key)
    requires UniqueKeys(ts)
    ensures UniqueKeys(Upsert(ts, k, sourceId, expires))
    ensures EntryAt(Upsert(ts, k, sourceId, expires), other)
         == if other != k then EntryAt(ts, other)
            else Some(NewTuple(k, if EntryAt(ts, k).Some? then EntryAt(ts, k).value.sourceId else sourceId, expires))
  {
    var i := IndexOf(ts, k);
    UpsertUnique(ts, k, sourceId, expires);
    if i < |ts| {
      WrittenEntry(ts, i, ts[i].(expires := expires), other);
    } else {
      var t := NewTuple(k, sourceId, expires);
      var j := IndexOf(ts, other);
      if j < |ts| {
        assert (ts + [t])[j] == ts[j];
        IndexOfKey(ts + [t], j);
      } else if other == k {
        assert (ts + [t])[|ts|] == t && KeyOf(t) == k;
        IndexOfKey(ts + [t], |ts|);
      }
    }
  }

  /** Removing the member just added takes the list back, unless the entry was there before and is now gone. */
  lemma AddThenRemove(ts: seq<Tuple>, k: Key, sourceId: Option<SourceId>, expires: Option<Instant>)
    ensures WithoutKey(Upsert(ts, k, sourceId, expires), k) == ts <==> k !in KeySet(ts)
  {
    IndexOfStored(ts, k);
    var added := Upsert(ts, k, sourceId, expires);
    FilterElements(added, NotKey(k));
    if k !in KeySet(ts) {
      var t := NewTuple(k, sourceId, expires);
      FilterConcat(ts, [t], NotKey(k));
      forall u | u in ts ensures KeyOf(u) != k {
        assert KeyOf(u) in KeySet(ts);
      }
      FilterAll(ts, NotKey(k));
      NewTupleKey(k, sourceId, expires);
      FilterNone([t], NotKey(k));
    } else {
      var u :| u in ts && KeyOf(u) == k;
      assert u !in WithoutKey(added, k);
    }
  }

  // ── ChangeRelation ──────────────────────────────────────────────────────────

  /** What is at the new relation after the change: the entry moved, or the one there with the longer life. */
  function ChangedTo(ts: seq<Tuple>, k: Key, to: string): Tuple
    requires EntryAt(ts, k).Some?
  {
    var from, target := EntryAt(ts, k).value, EntryAt(ts, k.(relation := to));
    match target
    case None => from.(relation := to)
    case Some(t) => t.(expires := LaterExpiry(from.expires, t.expires))
  }

  lemma RenamedUnique(ts: seq<Tuple>, i: nat, to: string)
    requires UniqueKeys(ts) && i < |ts| && IndexOf(ts, KeyOf(ts[i]).(relation := to)) == |ts|
    ensures UniqueKeys(ts[i := ts[i].(relation := to)])
  {
  }

  /**
   * Changing a relation takes the entry from its old key, leaves one at the new key, and every other entry as it was.
   */
  lemma ChangedEntry(ts: seq<Tuple>, k: Key, to: string, other: Key)
    requires UniqueKeys(ts) && EntryAt(ts, k).Some? && k.relation != to
    ensures Rerelate(ts, k, to).Ok?
    ensures UniqueKeys(Rerelate(ts, k, to).value)
    ensures EntryAt(Rerelate(ts, k, to).value, other)
         == if other == k then None
            else if other == k.(relation := to) then Some(ChangedTo(ts, k, to))
            else EntryAt(ts, other)
  {
    var from, target := IndexOf(ts, k), IndexOf(ts, k.(relation := to));
    if target == |ts| {
      RenamedUnique(ts, from, to);
      WrittenEntry(ts, from, ts[from].(relation := to), other);
    } else {
      var merged := ts[target].(expires := LaterExpiry(ts[from].expires, ts[target].expires));
      assert UniqueKeys(ts[target := merged]);
      WrittenEntry(ts, target, merged, other);
      DroppedUnique(ts[target := merged], from);
      DroppedEntry(ts[target := merged], from, other);
    }
  }

  lemma RerelatedLength(ts: seq<Tuple>, k: Key, to: string)
    requires Rerelate(ts, k, to).Ok?
    ensures |Rerelate(ts, k, to).value| <= |ts|
  {
  }

  /** Changing a relation there and back takes the list back exactly when nothing was merged on the way. */
  lemma ChangeBackIff(ts: seq<Tuple>, k: Key, to: string)
    requires UniqueKeys(ts) && k in KeySet(ts) && k.relation != to
    ensures Rerelate(ts, k, to).Ok?
    ensures Rerelate(Rerelate(ts, k, to).value, k.(relation := to), k.relation) == Ok(ts)
            <==> k.(relation := to) !in KeySet(ts)
  {
    var k' := k.(relation := to);
    IndexOfStored(ts, k);
    IndexOfStored(ts, k');
    ChangedEntry(ts, k, to, k);
    ChangedEntry(ts, k, to, k');
    var once := Rerelate(ts, k, to).value;
    var from := IndexOf(ts, k);
    if k' !in KeySet(ts) {
      assert once[from] == ts[from].(relation := to) && KeyOf(once[from]) == k';
      IndexOfKey(once, from);
      assert IndexOf(once, k) == |once|;
      assert once[from := once[from].(relation := k.relation)] == ts;
    } else {
      assert |once| == |ts| - 1;
      RerelatedLength(once, k', k.relation);
    }
  }
}
