// The recursive queries of the Postgres store (internal/storage/postgres.go:526-622),
// evaluated as PostgreSQL does (manual, section 7.8.2): the recursive term runs
// over the rows of the previous round only, and UNION drops rows already found.
module RecursiveQueries {
  import opened Tokens
  import opened Patterns
  import opened Tuples
  import opened Resolution
  import opened UserTokens

  function LiveRows(rows: set<Tuple>, now: Instant): set<Tuple> {
    set t | t in rows && Live(t, now)
  }

  // ── held: what a person holds ───────────────────────────────────────────────

  /** The pattern rules matching an address, found before the query runs. */
  function PatternMatches(rows: set<Tuple>, email: string, now: Instant): set<Pair> {
    set t | t in rows && t.kind == Pattern && Live(t, now) && GlobMatches(t.subjId, email) :: PairOf(t)
  }

  function DirectRows(rows: set<Tuple>, email: string, now: Instant): set<Pair> {
    set t | t in rows && t.kind == User && t.subjId == email && Live(t, now) :: PairOf(t)
  }

  /** The recursive term, joined with the working table. */
  function JoinHeld(rows: set<Tuple>, working: set<Pair>, now: Instant): set<Pair> {
    set t, h | t in rows && h in working
               && t.kind == Subgroup && t.subjId == h.group
               && (t.subjRel == MEMBER || t.subjRel == h.relation) && Live(t, now) :: PairOf(t)
  }

  lemma JoinHeldIsPassed(rows: set<Tuple>, working: set<Pair>, now: Instant)
    ensures JoinHeld(rows, working, now) == Passed(LiveRows(rows, now), working)
  {
  }

  lemma SeedRows(rows: set<Tuple>, email: string, now: Instant)
    ensures DirectRows(rows, email, now) + PatternMatches(rows, email, now) == Seeds(LiveRows(rows, now), email)
  {
  }

  /** What the rounds of held have found; all of it but the working table has been joined. */
  ghost predicate HeldSoFar(rows: set<Tuple>, email: string, now: Instant, held: set<Pair>, working: set<Pair>) {
    working <= held && Worklist(LiveRows(rows, now), email, held, held - working)
  }

  /** One round: the rows joined from the last round's rows, and from them alone, are all that can be new. */
  lemma HeldRound(rows: set<Tuple>, email: string, now: Instant, held: set<Pair>, working: set<Pair>, next: set<Pair>)
    requires HeldSoFar(rows, email, now, held, working)
    requires next == JoinHeld(rows, working, now) - held
    ensures HeldSoFar(rows, email, now, held + next, next)
    ensures next == {} || Granted(LiveRows(rows, now)) - (held + next) < Granted(LiveRows(rows, now)) - held
  {
    JoinHeldIsPassed(rows, working, now);
    WorklistAdvances(LiveRows(rows, now), email, held, held - working, working);
    assert (held - working) + working == held == (held + next) - next;
  }

  lemma HeldStart(rows: set<Tuple>, email: string, now: Instant)
    ensures var start := DirectRows(rows, email, now) + PatternMatches(rows, email, now);
            HeldSoFar(rows, email, now, start, start)
  {
    HeldClosed(LiveRows(rows, now), email);
    SeedRows(rows, email, now);
    var start := DirectRows(rows, email, now) + PatternMatches(rows, email, now);
    assert start - start == {};
  }

  /** The rows a round finds that no round found before. */
  method NewHeld(rows: set<Tuple>, ghost email: string, now: Instant, held: set<Pair>, working: set<Pair>)
    returns (next: set<Pair>)
    requires HeldSoFar(rows, email, now, held, working)
    ensures HeldSoFar(rows, email, now, held + next, next)
    ensures next == {} || Granted(LiveRows(rows, now)) - (held + next) < Granted(LiveRows(rows, now)) - held
  {
    next := JoinHeld(rows, working, now) - held;
    HeldRound(rows, email, now, held, working, next);
  }

  /** With nothing left to join the rows are everything the person holds. */
  lemma HeldDone(rows: set<Tuple>, email: string, now: Instant, held: set<Pair>)
    requires HeldSoFar(rows, email, now, held, {})
    ensures held == Held(LiveRows(rows, now), email)
  {
    assert held - {} == held;
    WorklistDone(LiveRows(rows, now), email, held);
  }

  method HeldQuery(rows: set<Tuple>, email: string, now: Instant) returns (held: set<Pair>)
    ensures held == Held(LiveRows(rows, now), email)
  {
    ghost var L := LiveRows(rows, now);
    HeldStart(rows, email, now);
    held := DirectRows(rows, email, now) + PatternMatches(rows, email, now);
    var working := held;
    while working != {}
      invariant HeldSoFar(rows, email, now, held, working)
      decreases Granted(L) - held, |working|
    {
      var next := NewHeld(rows, email, now, held, working);
      held, working := held + next, next;
    }
    HeldDone(rows, email, now, held);
  }

  /** The final select: every group as a membership, united with the other relations, printed as tokens. */
  method UserTokensQuery(rows: set<Tuple>, email: string, now: Instant) returns (tokens: set<string>)
    ensures tokens == TokensFor(email, Held(LiveRows(rows, now), email))
  {
    var held := HeldQuery(rows, email, now);
    var selected := (set p | p in held :: Pair(p.group, MEMBER)) + (set p | p in held && p.relation != MEMBER);
    tokens := {USER_PREFIX + email} + set p | p in selected :: GroupToken(p.group, p.relation);
    assert forall p :: p in held ==> GroupToken(p.group, MEMBER) == GROUP_PREFIX + p.group;
    forall token | token in TokensFor(email, held) ensures token in tokens {
      if token in MembershipTokens(held) {
        var p :| p in held && token == GROUP_PREFIX + p.group;
        assert Pair(p.group, MEMBER) in selected;
      }
    }
  }

  // ── expand: whom a group counts ─────────────────────────────────────────────

  /** A row of the expand table. */
  datatype SubjectRow = SubjectRow(kind: Kind, subjId: string, subjRel: string)

  function RowOf(t: Tuple): SubjectRow {
    SubjectRow(t.kind, t.subjId, t.subjRel)
  }

  function RowsOf(T: set<Tuple>): set<SubjectRow> {
    set t | t in T :: RowOf(t)
  }

  function FirstRows(rows: set<Tuple>, groupId: string, filter: string, now: Instant): set<SubjectRow> {
    set t | t in rows && t.objId == groupId && (filter == "" || t.relation == filter) && Live(t, now) :: RowOf(t)
  }

  function JoinExpand(rows: set<Tuple>, working: set<SubjectRow>, now: Instant): set<SubjectRow> {
    set t, e | t in rows && e in working
               && e.kind == Subgroup && t.objId == e.subjId
               && (e.subjRel == MEMBER || t.relation == e.subjRel) && Live(t, now) :: RowOf(t)
  }

  /** Joining with rows of reached tuples gives rows of reached tuples. */
  lemma JoinExpandReached(rows: set<Tuple>, working: set<SubjectRow>, now: Instant, p: Pair)
    requires working <= RowsOf(Reached(LiveRows(rows, now), p))
    ensures JoinExpand(rows, working, now) <= RowsOf(Reached(LiveRows(rows, now), p))
  {
    var L := LiveRows(rows, now);
    ReachedClosed(L, p);
    forall r | r in JoinExpand(rows, working, now) ensures r in RowsOf(Reached(L, p)) {
      var t, e :| t in rows && e in working && e.kind == Subgroup && t.objId == e.subjId
                  && (e.subjRel == MEMBER || t.relation == e.subjRel) && Live(t, now) && RowOf(t) == r;
      var u :| u in Reached(L, p) && RowOf(u) == e;
      assert Feeds(PairOf(t), u);
      assert t in Expanded(L, Reached(L, p));
    }
  }

  /** Rows closed under the join hold the row of everything reached. */
  lemma ClosedRowsReached(rows: set<Tuple>, result: set<SubjectRow>, now: Instant, p: Pair)
    requires RowsOf(Entries(LiveRows(rows, now), p)) <= result && JoinExpand(rows, result, now) <= result
    ensures RowsOf(Reached(LiveRows(rows, now), p)) <= result
  {
    var L := LiveRows(rows, now);
    var T := set t | t in L && RowOf(t) in result;
    forall t | t in Entries(L, p) ensures t in T {
      assert RowOf(t) in RowsOf(Entries(L, p));
    }
    forall u | u in Expanded(L, T) ensures u in T {
      var t :| t in T && u in L && Feeds(PairOf(u), t);
      assert RowOf(u) in JoinExpand(rows, result, now);
    }
    ReachedIsLeast(L, p, T);
  }

  lemma JoinExpandUnion(rows: set<Tuple>, a: set<SubjectRow>, b: set<SubjectRow>, now: Instant)
    ensures JoinExpand(rows, a + b, now) == JoinExpand(rows, a, now) + JoinExpand(rows, b, now)
  {
  }

  /** What the rounds of expand have found, and which of it has been joined. */
  ghost predicate ExpandSoFar(rows: set<Tuple>, now: Instant, p: Pair, result: set<SubjectRow>,
                              joined: set<SubjectRow>) {
    RowsOf(Entries(LiveRows(rows, now), p)) <= result <= RowsOf(Reached(LiveRows(rows, now), p))
    && joined <= result && JoinExpand(rows, joined, now) <= result
  }

  lemma ExpandRound(rows: set<Tuple>, now: Instant, p: Pair, result: set<SubjectRow>, working: set<SubjectRow>)
    requires working <= result && ExpandSoFar(rows, now, p, result, result - working)
    ensures var all, next := RowsOf(Reached(LiveRows(rows, now), p)), JoinExpand(rows, working, now) - result;
            ExpandSoFar(rows, now, p, result + next, (result + next) - next)
            && (next == {} || all - (result + next) < all - result)
  {
    var all, next := RowsOf(Reached(LiveRows(rows, now), p)), JoinExpand(rows, working, now) - result;
    JoinExpandReached(rows, working, now, p);
    JoinExpandUnion(rows, result - working, working, now);
    assert (result - working) + working == result == (result + next) - next;
    if next != {} {
      var r :| r in next;
      assert r in all - result;
    }
  }

  method ExpandQuery(rows: set<Tuple>, groupId: string, relation: string, now: Instant)
    returns (result: set<SubjectRow>)
    ensures result == RowsOf(Reached(LiveRows(rows, now), Pair(groupId, NormalizeRelation(relation))))
  {
    ghost var p := Pair(groupId, NormalizeRelation(relation));
    ghost var all := RowsOf(Reached(LiveRows(rows, now), p));
    ReachedClosed(LiveRows(rows, now), p);
    result := FirstRows(rows, groupId, FilterFor(NormalizeRelation(relation)), now);
    assert result == RowsOf(Entries(LiveRows(rows, now), p));
    var working := result;
    assert result - working == {};
    while working != {}
      invariant working <= result && ExpandSoFar(rows, now, p, result, result - working)
      decreases all - result, |working|
    {
      ExpandRound(rows, now, p, result, working);
      var next := JoinExpand(rows, working, now) - result;
      result, working := result + next, next;
    }
    assert result - working == result;
    ClosedRowsReached(rows, result, now, p);
  }

  /** The final select leaves the pattern rows out and prints the rest. */
  method MembersQuery(rows: set<Tuple>, groupId: string, relation: string, now: Instant) returns (tokens: set<string>)
    ensures tokens == MemberTokens(LiveRows(rows, now), Pair(groupId, NormalizeRelation(relation)))
  {
    var expanded := ExpandQuery(rows, groupId, relation, now);
    tokens := set r | r in expanded && r.kind != Pattern :: MemberToken(r.kind, r.subjId, r.subjRel);
    ghost var reached := Reached(LiveRows(rows, now), Pair(groupId, NormalizeRelation(relation)));
    forall token | token in SubjectTokens(reached) ensures token in tokens {
      var t :| t in reached && t.kind != Pattern && token == MemberToken(t.kind, t.subjId, t.subjRel);
      assert RowOf(t) in expanded;
    }
  }
}
