// When an entry ends: what it changes up to its end, and that nothing is left of
// it from then on (internal/storage/memory.go:19-40, 205-228).
module Expiry {
  import opened Wrappers
  import opened Sequences
  import opened Tuples
  import opened Resolution
  import opened Graph
  import opened Transitions
  import opened EntryLaws
  import opened ChangeLaws

  lemma FoundEntry(ts: seq<Tuple>, now: Instant, k: Key)
    requires UniqueKeys(ts)
    ensures k in Keys(LiveTuples(ts, now))
            <==> EntryAt(ts, k).Some? && Live(EntryAt(ts, k).value, now)
  {
    if k in Keys(LiveTuples(ts, now)) {
      var t :| t in LiveTuples(ts, now) && KeyOf(t) == k;
      var i :| 0 <= i < |ts| && ts[i] == t;
      IndexOfKey(ts, i);
    }
  }

  /** Of an entry written with an end, its key counts before the end and not from then on; every other key as before. */
  lemma UpsertedKeys(ts: seq<Tuple>, k: Key, source: Option<SourceId>, expires: Option<Instant>, later: Instant)
    requires UniqueKeys(ts)
    ensures Keys(LiveTuples(Upsert(ts, k, source, expires), later))
         == Keys(LiveTuples(WithoutKey(ts, k), later))
            + if expires.Some? && later >= expires.value then {} else {k}
  {
    var added, removed := Upsert(ts, k, source, expires), WithoutKey(ts, k);
    FilterKeepsUniqueKeys(ts, NotKey(k));
    FilterElements(ts, NotKey(k));
    forall other
      ensures other in Keys(LiveTuples(added, later))
              <==> if other == k then !(expires.Some? && later >= expires.value)
                   else other in Keys(LiveTuples(removed, later))
    {
      AddedEntry(ts, k, source, expires, other);
      FoundEntry(added, later, other);
      if other != k {
        FoundEntry(ts, later, other);
        if t :| t in LiveTuples(ts, later) && KeyOf(t) == other {
          assert t in LiveTuples(removed, later);
        }
      }
    }
    assert k !in Keys(LiveTuples(removed, later));
  }

  /**
   * From its end on an entry is as good as removed, and before it as good as one without an end: for what everyone
   * holds, for whom every group counts, and for the group graph.
   */
  lemma EndsOnTime(ts: seq<Tuple>, k: Key, source: Option<SourceId>, end: Instant, later: Instant, email: string,
                   p: Pair)
    requires UniqueKeys(ts)
    ensures var ended := LiveTuples(Upsert(ts, k, source, Some(end)), later);
            var instead := LiveTuples(if later >= end then WithoutKey(ts, k) else Upsert(ts, k, source, None), later);
            Held(ended, email) == Held(instead, email)
            && MemberTokens(ended, p) == MemberTokens(instead, p)
            && Edges(ended) == Edges(instead)
  {
    var instead := if later >= end then WithoutKey(ts, k) else Upsert(ts, k, source, None);
    UpsertedKeys(ts, k, source, Some(end), later);
    UpsertedKeys(ts, k, source, None, later);
    KeysDecide(LiveTuples(Upsert(ts, k, source, Some(end)), later), LiveTuples(instead, later), email, p);
  }
}
