// normalizeStoredIDs (internal/storage/postgres.go:272-297): rows written before
// ids were lowercased are brought into the one spelling, at every start.
module NormalizeIds {
  import opened Wrappers
  import opened Text
  import opened Tokens
  import opened Tuples

  // ── Tuples ──────────────────────────────────────────────────────────────────

  /** A row of the tuples table: the key columns, and what the statements never look at. */
  datatype Row = Row(key: Key, sourceId: Option<SourceId>, expires: Option<Instant>)

  /** The table by primary key, a uuid; uuids are ordered. */
  type Rows = map<nat, Row>

  /** What the unique index demands. */
  ghost predicate UniqueRows(rows: Rows) {
    forall i, j :: i in rows && j in rows && rows[i].key == rows[j].key ==> i == j
  }

  function LowerKey(k: Key): Key {
    k.(objId := Lower(k.objId), subjId := Lower(k.subjId))
  }

  function LowerRow(r: Row): Row {
    r.(key := LowerKey(r.key))
  }

  predicate SameSpelling(r: Row, q: Row) {
    LowerKey(r.key) == LowerKey(q.key)
  }

  /** The row with the smallest uuid of all spellings of its key. */
  ghost predicate IsFirst(rows: Rows, i: nat) {
    i in rows && forall j :: j in rows && SameSpelling(rows[j], rows[i]) ==> i <= j
  }

  ghost function Firsts(rows: Rows): set<nat> {
    set i | i in rows && IsFirst(rows, i)
  }

  ghost function Normalized(rows: Rows): Rows {
    map i | i in Firsts(rows) :: LowerRow(rows[i])
  }

  /** Another spelling of the row's key has a smaller uuid. */
  predicate HasEarlier(rows: Rows, i: nat)
    requires i in rows
  {
    exists j :: j in rows && i > j && SameSpelling(rows[i], rows[j])
  }

  /** The first statement deletes those rows. */
  function Deduplicated(rows: Rows): Rows {
    map i | i in rows && !HasEarlier(rows, i) :: rows[i]
  }

  /** One row of the second statement; the index refuses a key another row has at that moment. */
  method UpdateRow(rows: Rows, i: nat) returns (updated: Rows)
    requires i in rows && UniqueRows(rows)
    requires forall j :: j in rows && j != i ==> rows[j].key != LowerKey(rows[i].key)
    ensures updated == rows[i := LowerRow(rows[i])] && UniqueRows(updated)
  {
    updated := rows[i := LowerRow(rows[i])];
  }

  lemma LowerTwice(s: string)
    ensures Lower(Lower(s)) == Lower(s)
  {
  }

  lemma LowerKeyTwice(k: Key)
    ensures LowerKey(LowerKey(k)) == LowerKey(k)
  {
    LowerTwice(k.objId);
    LowerTwice(k.subjId);
  }

  /** How far the UPDATE has come: some rows rewritten, the others as kept. */
  ghost predicate Updating(kept: Rows, out: Rows, pending: set<nat>) {
    pending <= out.Keys && out.Keys == kept.Keys
    && forall i :: i in kept ==> out[i] == if i in pending then kept[i] else LowerRow(kept[i])
  }

  /** No spelling of the kept rows' keys is there twice. */
  ghost predicate OneSpelling(kept: Rows) {
    forall i, j :: i in kept && j in kept && SameSpelling(kept[i], kept[j]) ==> i == j
  }

  /** So no row, rewritten already or not, has the key another one is about to take. */
  lemma UpdateFits(kept: Rows, out: Rows, pending: set<nat>, i: nat)
    requires OneSpelling(kept) && Updating(kept, out, pending) && i in pending
    ensures UniqueRows(out)
    ensures forall j :: j in out && j != i ==> out[j].key != LowerKey(out[i].key)
  {
    forall j | j in out ensures LowerKey(out[j].key) == LowerKey(kept[j].key) {
      LowerKeyTwice(kept[j].key);
    }
    forall a, b | a in out && b in out && out[a].key == out[b].key ensures a == b {
      assert SameSpelling(kept[a], kept[b]);
    }
    forall j | j in out && j != i ensures out[j].key != LowerKey(out[i].key) {
      LowerKeyTwice(kept[i].key);
      assert !SameSpelling(kept[j], kept[i]);
    }
  }

  lemma KeptIffFirst(rows: Rows, i: nat)
    requires i in rows
    ensures HasEarlier(rows, i) <==> !IsFirst(rows, i)
  {
    if !IsFirst(rows, i) {
      var j :| j in rows && SameSpelling(rows[j], rows[i]) && j < i;
      assert SameSpelling(rows[i], rows[j]);
    }
  }

  /** What the DELETE keeps are the first spellings. */
  lemma DeduplicatedKeepsFirst(rows: Rows)
    ensures Deduplicated(rows).Keys == Firsts(rows)
    ensures OneSpelling(Deduplicated(rows))
  {
    forall i | i in rows ensures HasEarlier(rows, i) <==> !IsFirst(rows, i) {
      KeptIffFirst(rows, i);
    }
    var kept := Deduplicated(rows);
    forall i, j | i in kept && j in kept && SameSpelling(kept[i], kept[j]) ensures i == j {
      assert IsFirst(rows, i) && IsFirst(rows, j);
      assert SameSpelling(rows[i], rows[j]) && SameSpelling(rows[j], rows[i]);
    }
  }

  /** The UPDATE, the rows taken in any order. */
  method LowerRows(kept: Rows) returns (out: Rows)
    requires OneSpelling(kept)
    ensures out == map i | i in kept :: LowerRow(kept[i])
  {
    out := kept;
    var pending := set i | i in out && out[i] != LowerRow(out[i]);
    while pending != {}
      invariant Updating(kept, out, pending)
    {
      var i :| i in pending;
      UpdateFits(kept, out, pending, i);
      out := UpdateRow(out, i);
      pending := pending - {i};
    }
  }

  /** Both statements on the tuples table. */
  method NormalizeTuples(rows: Rows) returns (out: Rows)
    ensures out == Normalized(rows)
  {
    DeduplicatedKeepsFirst(rows);
    out := LowerRows(Deduplicated(rows));
  }

  /** Every key has a first spelling. */
  lemma {:induction false} FirstExists(rows: Rows, i: nat) returns (first: nat)
    requires i in rows
    ensures IsFirst(rows, first) && SameSpelling(rows[first], rows[i])
    decreases i
  {
    if IsFirst(rows, i) {
      first := i;
    } else {
      var j :| j in rows && SameSpelling(rows[j], rows[i]) && j < i;
      first := FirstExists(rows, j);
    }
  }

  function KeysOf(rows: Rows): set<Key> {
    set i | i in rows :: rows[i].key
  }

  function LowerKeys(keys: set<Key>): set<Key> {
    set k | k in keys :: LowerKey(k)
  }

  /** Exactly one row per lowercased key, and no key lost or invented. */
  lemma NormalizedKeys(rows: Rows)
    ensures UniqueRows(Normalized(rows))
    ensures KeysOf(Normalized(rows)) == LowerKeys(KeysOf(rows))
  {
    var out := Normalized(rows);
    forall i, j | i in out && j in out && out[i].key == out[j].key ensures i == j {
      assert SameSpelling(rows[i], rows[j]) && SameSpelling(rows[j], rows[i]);
    }
    forall i | i in out ensures out[i].key in LowerKeys(KeysOf(rows)) {
      assert rows[i].key in KeysOf(rows);
    }
    forall k | k in LowerKeys(KeysOf(rows)) ensures k in KeysOf(out) {
      var i :| i in rows && LowerKey(rows[i].key) == k;
      var first := FirstExists(rows, i);
      assert first in out && out[first].key == k;
    }
  }

  /** The same group, relation and subject but for capitals in the ids. */
  predicate SameButCapitals(k: Key, l: Key) {
    Lower(k.objId) == Lower(l.objId) && Lower(k.subjId) == Lower(l.subjId)
    && k.relation == l.relation && k.kind == l.kind && k.subjRel == l.subjRel
  }

  /**
   * A row stays unless one with a smaller uuid is the same but for capitals; its ids are lowercased and nothing else.
   */
  lemma NormalizedRows(rows: Rows, i: nat)
    ensures i in Normalized(rows)
            <==> i in rows && forall j :: j in rows && j < i ==> !SameButCapitals(rows[j].key, rows[i].key)
    ensures i in Normalized(rows) ==>
              var was, r := rows[i], Normalized(rows)[i];
              r.key.objId == Lower(was.key.objId) && r.key.subjId == Lower(was.key.subjId)
              && r.key.relation == was.key.relation && r.key.kind == was.key.kind && r.key.subjRel == was.key.subjRel
              && r.sourceId == was.sourceId && r.expires == was.expires
  {
    forall j | i in rows && j in rows
      ensures SameSpelling(rows[j], rows[i]) <==> SameButCapitals(rows[j].key, rows[i].key)
    {
    }
  }

  /** A second start changes nothing. */
  lemma NormalizedTwice(rows: Rows)
    ensures Normalized(Normalized(rows)) == Normalized(rows)
  {
    var out := Normalized(rows);
    forall i | i in out
      ensures LowerRow(out[i]) == out[i]
    {
      LowerKeyTwice(rows[i].key);
    }
    forall i | i in out ensures IsFirst(out, i) {
      forall j | j in out && SameSpelling(out[j], out[i]) ensures i <= j {
        assert SameSpelling(rows[j], rows[i]);
      }
    }
    assert Firsts(out) == out.Keys;
  }

  // ── Which validity survives ─────────────────────────────────────────────────

  predicate LiveRow(r: Row, now: Instant) {
    r.expires == None || r.expires.value > now
  }

  /** The keys that count at an instant. */
  function LiveKeys(rows: Rows, now: Instant): set<Key> {
    set i | i in rows && LiveRow(rows[i], now) :: rows[i].key
  }

  /** Normalizing makes no entry count that did not. */
  lemma NormalizingAddsNone(rows: Rows, now: Instant)
    ensures LiveKeys(Normalized(rows), now) <= LowerKeys(LiveKeys(rows, now))
  {
    forall i | i in Normalized(rows) && LiveRow(Normalized(rows)[i], now)
      ensures Normalized(rows)[i].key in LowerKeys(LiveKeys(rows, now))
    {
      assert rows[i].key in LiveKeys(rows, now);
    }
  }

  /**
   * It ends none either exactly when the first spelling of every entry that counts still counts: the others' expiry is
   * dropped unread.
   */
  lemma NormalizingEndsNoneIff(rows: Rows, now: Instant)
    ensures LiveKeys(Normalized(rows), now) == LowerKeys(LiveKeys(rows, now))
            <==> forall i, first ::
                   i in rows && LiveRow(rows[i], now) && IsFirst(rows, first) && SameSpelling(rows[first], rows[i])
                   ==> LiveRow(rows[first], now)
  {
    NormalizingAddsNone(rows, now);
    var out := Normalized(rows);
    if LiveKeys(out, now) == LowerKeys(LiveKeys(rows, now)) {
      forall i, first | i in rows && LiveRow(rows[i], now) && IsFirst(rows, first) && SameSpelling(rows[first], rows[i])
        ensures LiveRow(rows[first], now)
      {
        assert rows[i].key in LiveKeys(rows, now);
        assert LowerKey(rows[i].key) in LiveKeys(out, now);
        var j :| j in out && LiveRow(out[j], now) && out[j].key == LowerKey(rows[i].key);
        assert SameSpelling(rows[j], rows[first]) && SameSpelling(rows[first], rows[j]);
        assert j == first;
      }
    } else {
      var k :| k in LowerKeys(LiveKeys(rows, now)) && k !in LiveKeys(out, now);
      var i :| i in rows && LiveRow(rows[i], now) && LowerKey(rows[i].key) == k;
      var first := FirstExists(rows, i);
      assert first in out && out[first].key == k;
    }
  }

  /** An entry that is over takes another spelling of it along that has no end, if its uuid is the smaller one. */
  lemma LapsedSpellingWins(groupId: string, email: string, expired: Instant, now: Instant)
    requires expired <= now && Lower(groupId) != groupId
    ensures var rows: Rows := map[0 := Row(Key(Lower(groupId), MEMBER, User, email, ""), None, Some(expired)),
                                  1 := Row(Key(groupId, MEMBER, User, email, ""), None, None)];
            UniqueRows(rows) && LiveKeys(rows, now) == {Key(groupId, MEMBER, User, email, "")}
            && LiveKeys(Normalized(rows), now) == {}
  {
    var rows: Rows := map[0 := Row(Key(Lower(groupId), MEMBER, User, email, ""), None, Some(expired)),
                          1 := Row(Key(groupId, MEMBER, User, email, ""), None, None)];
    LowerTwice(groupId);
    assert SameSpelling(rows[0], rows[1]);
    assert !IsFirst(rows, 1);
    assert LiveRow(rows[1], now) && !LiveRow(rows[0], now);
    assert rows[1].key in LiveKeys(rows, now);
    forall i | i in Normalized(rows) ensures !LiveRow(Normalized(rows)[i], now) {
      assert i == 0;
    }
  }

  // ── Groups ──────────────────────────────────────────────────────────────────

  /** The third statement deletes a spelling when the lowercase one is there, or a smaller one is. */
  predicate Superseded(ids: set<string>, a: string) {
    exists b :: b in ids && a != b && Lower(a) == Lower(b) && a != Lower(a) && (b == Lower(b) || Leq(b, a))
  }

  function LowerImage(ids: set<string>): set<string> {
    set id | id in ids :: Lower(id)
  }

  lemma {:induction false} LeastExists(ids: set<string>) returns (least: string)
    requires ids != {}
    ensures least in ids && forall b :: b in ids ==> Leq(least, b)
    decreases |ids|
  {
    var a :| a in ids;
    if ids == {a} {
      least := a;
      LeqTotal(a, a);
    } else {
      var rest := ids - {a};
      assert ids == rest + {a};
      assert rest != {};
      var other := LeastExists(rest);
      LeqTotal(a, other);
      LeqTotal(a, a);
      if Leq(a, other) {
        least := a;
        forall b | b in rest ensures Leq(a, b) { LeqTransitive(a, other, b); }
      } else {
        least := other;
      }
    }
  }

  /** Of all spellings of an id one is kept. */
  lemma SpellingKept(ids: set<string>, a: string) returns (kept: string)
    requires a in ids
    ensures kept in ids && Lower(kept) == Lower(a) && !Superseded(ids, kept)
  {
    LowerTwice(a);
    if Lower(a) in ids {
      kept := Lower(a);
    } else {
      var spellings := set b | b in ids && Lower(b) == Lower(a);
      assert a in spellings;
      kept := LeastExists(spellings);
      forall b | b in ids && kept != b && Lower(kept) == Lower(b)
        ensures b != Lower(b) && !Leq(b, kept)
      {
        assert b in spellings;
        if Leq(b, kept) { LeqAntisymmetric(b, kept); }
      }
    }
  }

  /** And no two. */
  lemma OneSpellingKept(ids: set<string>, a: string, b: string)
    requires a in ids && b in ids && Lower(a) == Lower(b)
    requires !Superseded(ids, a) && !Superseded(ids, b)
    ensures a == b
  {
    LeqTotal(a, b);
  }

  /**
   * Both statements on the groups table, the rows renamed in any order; the primary key refuses an id that is taken.
   */
  method NormalizeGroups(ids: set<string>) returns (out: set<string>)
    ensures out == LowerImage(ids)
  {
    var kept := set a | a in ids && !Superseded(ids, a);
    out := kept;
    var pending := set a | a in kept && a != Lower(a);
    while pending != {}
      invariant pending <= kept && pending <= out
      invariant out == pending + LowerImage(kept - pending)
    {
      var a :| a in pending;
      assert Lower(a) !in out by {
        NewNameFree(ids, kept, pending, a);
      }
      assert LowerImage(kept - (pending - {a})) == LowerImage(kept - pending) + {Lower(a)} by {
        assert kept - (pending - {a}) == (kept - pending) + {a};
      }
      NewNameFree(ids, kept, pending, a);
      out := out - {a} + {Lower(a)};
      pending := pending - {a};
    }
    assert kept - pending == kept;
    forall id | id in LowerImage(ids) ensures id in out {
      var a :| a in ids && Lower(a) == id;
      var k := SpellingKept(ids, a);
      assert k in kept;
    }
  }

  /** Renaming a kept spelling hits no other row, renamed already or not, and no renamed row is still called a. */
  lemma NewNameFree(ids: set<string>, kept: set<string>, pending: set<string>, a: string)
    requires kept == set x | x in ids && !Superseded(ids, x)
    requires a in pending && pending <= kept && a != Lower(a)
    ensures Lower(a) !in pending + LowerImage(kept - pending)
    ensures a !in LowerImage(kept - pending)
  {
    LowerTwice(a);
    if Lower(a) in pending {
      OneSpellingKept(ids, a, Lower(a));
    }
    forall b | b in kept - pending
      ensures Lower(b) != Lower(a) && Lower(b) != a
    {
      LowerTwice(b);
      if Lower(b) == Lower(a) {
        OneSpellingKept(ids, a, b);
      }
    }
  }

  /** A second start changes nothing here either. */
  lemma LowerImageTwice(ids: set<string>)
    ensures LowerImage(LowerImage(ids)) == LowerImage(ids)
  {
    forall id | id in LowerImage(ids) ensures id in LowerImage(LowerImage(ids)) {
      var a :| a in ids && Lower(a) == id;
      LowerTwice(a);
      assert Lower(id) == id;
    }
    forall id | id in LowerImage(LowerImage(ids)) ensures id in LowerImage(ids) {
      var b :| b in LowerImage(ids) && Lower(b) == id;
      var a :| a in ids && Lower(a) == b;
      LowerTwice(a);
    }
  }
}
