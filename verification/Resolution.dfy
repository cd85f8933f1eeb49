// What it means to hold a relation and to be a member, independently of how it
// is computed: chains of live tuples, read upwards from a person or downwards
// from a group (internal/storage/memory.go:319-413).
module Resolution {
  import opened Tokens
  import opened Patterns
  import opened Tuples

  datatype Pair = Pair(group: string, relation: string)

  function PairOf(t: Tuple): Pair {
    Pair(t.objId, t.relation)
  }

  /** The tuple is about this person: by address, or by a pattern matching it. */
  predicate Names(t: Tuple, email: string) {
    (t.kind == User && t.subjId == email)
    || (t.kind == Pattern && GlobMatches(t.subjId, email))
  }

  /** Holding p makes one hold what the tuple grants. */
  predicate Feeds(p: Pair, t: Tuple) {
    t.kind == Subgroup && t.subjId == p.group && (t.subjRel == MEMBER || t.subjRel == p.relation)
  }

  /** Tuples of L, each granting something the next one passes on. */
  ghost predicate IsChain(L: set<Tuple>, c: seq<Tuple>) {
    (forall i :: 0 <= i < |c| ==> c[i] in L)
    && (forall i :: 0 <= i < |c| - 1 ==> Feeds(PairOf(c[i]), c[i + 1]))
  }

  // ── Upwards: what a person holds ────────────────────────────────────────────

  ghost predicate IsHeldBy(L: set<Tuple>, email: string, c: seq<Tuple>, p: Pair) {
    c != [] && IsChain(L, c) && Names(c[0], email) && PairOf(c[|c| - 1]) == p
  }

  ghost predicate Holds(L: set<Tuple>, email: string, p: Pair) {
    exists c :: IsHeldBy(L, email, c, p)
  }

  /** The pairs some tuple of L grants. */
  function Granted(L: set<Tuple>): set<Pair> {
    set t | t in L :: PairOf(t)
  }

  ghost function Held(L: set<Tuple>, email: string): set<Pair> {
    set p | p in Granted(L) && Holds(L, email, p)
  }

  function Seeds(L: set<Tuple>, email: string): set<Pair> {
    set t | t in L && Names(t, email) :: PairOf(t)
  }

  /** What holding the pairs in S passes on, in one step. */
  function Passed(L: set<Tuple>, S: set<Pair>): set<Pair> {
    set t, p | t in L && p in S && Feeds(p, t) :: PairOf(t)
  }

  lemma HeldHasChain(L: set<Tuple>, email: string, p: Pair)
    ensures p in Held(L, email) <==> Holds(L, email, p)
  {
    if c :| IsHeldBy(L, email, c, p) {
      assert c[|c| - 1] in L;
    }
  }

  lemma HeldClosed(L: set<Tuple>, email: string)
    ensures Seeds(L, email) <= Held(L, email)
    ensures Passed(L, Held(L, email)) <= Held(L, email)
  {
    forall p | p in Seeds(L, email) ensures p in Held(L, email) {
      var t :| t in L && Names(t, email) && PairOf(t) == p;
      assert IsHeldBy(L, email, [t], p);
      HeldHasChain(L, email, p);
    }
    forall p | p in Passed(L, Held(L, email)) ensures p in Held(L, email) {
      var t, q :| t in L && q in Held(L, email) && Feeds(q, t) && PairOf(t) == p;
      var c :| IsHeldBy(L, email, c, q);
      assert IsHeldBy(L, email, c + [t], p);
      HeldHasChain(L, email, p);
    }
  }

  lemma {:induction false} ChainInClosed(L: set<Tuple>, email: string, c: seq<Tuple>, S: set<Pair>)
    requires c != [] && IsChain(L, c) && Names(c[0], email)
    requires Seeds(L, email) <= S && Passed(L, S) <= S
    ensures PairOf(c[|c| - 1]) in S
  {
    var t := c[|c| - 1];
    assert t in L;
    if |c| == 1 {
      assert PairOf(t) in Seeds(L, email);
    } else {
      var init := c[..|c| - 1];
      ChainInClosed(L, email, init, S);
      var p := PairOf(init[|init| - 1]);
      assert p in S && Feeds(p, t);
      assert PairOf(t) in Passed(L, S);
    }
  }

  /** Held is the least set containing the seeds and closed under passing on. */
  lemma HeldIsLeast(L: set<Tuple>, email: string, S: set<Pair>)
    requires Seeds(L, email) <= S && Passed(L, S) <= S
    ensures Held(L, email) <= S
  {
    forall p | p in Held(L, email) ensures p in S {
      var c :| IsHeldBy(L, email, c, p);
      ChainInClosed(L, email, c, S);
    }
  }

  /** Held satisfies the equation it is the least solution of. */
  lemma HeldIsFixpoint(L: set<Tuple>, email: string)
    ensures Held(L, email) == Seeds(L, email) + Passed(L, Held(L, email))
  {
    HeldClosed(L, email);
    var S := Seeds(L, email) + Passed(L, Held(L, email));
    assert Passed(L, S) <= Passed(L, Held(L, email));
    HeldIsLeast(L, email, S);
  }

  /** What a traversal has found and worked through so far. */
  ghost predicate Worklist(L: set<Tuple>, email: string, held: set<Pair>, done: set<Pair>) {
    done <= held && Seeds(L, email) <= held <= Held(L, email) && Passed(L, done) <= held
  }

  /**
   * Working through one more pair keeps the worklist, and either finds nothing or comes closer to all pairs there are.
   */
  lemma WorklistAdvances(L: set<Tuple>, email: string, held: set<Pair>, done: set<Pair>, work: set<Pair>)
    requires Worklist(L, email, held, done) && work <= held
    ensures var added := Passed(L, work) - held;
            Worklist(L, email, held + added, done + work)
            && (added == {} || Granted(L) - (held + added) < Granted(L) - held)
  {
    HeldClosed(L, email);
    var added := Passed(L, work) - held;
    assert Passed(L, work) <= Passed(L, Held(L, email));
    assert Passed(L, done + work) == Passed(L, done) + Passed(L, work);
    if added != {} {
      var p :| p in added;
      assert p in Granted(L) - held;
    }
  }

  /** A worklist with nothing left to work through has found exactly what is held. */
  lemma WorklistDone(L: set<Tuple>, email: string, held: set<Pair>)
    requires Worklist(L, email, held, held)
    ensures held == Held(L, email)
  {
    HeldIsLeast(L, email, held);
  }

  /** More live tuples never take anything away. */
  lemma HeldMonotone(L1: set<Tuple>, L2: set<Tuple>, email: string)
    requires L1 <= L2
    ensures Held(L1, email) <= Held(L2, email)
  {
    forall p | p in Held(L1, email) ensures p in Held(L2, email) {
      var c :| IsHeldBy(L1, email, c, p);
      assert IsHeldBy(L2, email, c, p);
      HeldHasChain(L2, email, p);
    }
  }

  // ── Downwards: whom a group counts ──────────────────────────────────────────

  function FilterFor(relation: string): string {
    if relation == MEMBER then "" else relation
  }

  predicate RelationMatches(tupleRelation: string, filter: string) {
    filter == "" || tupleRelation == filter
  }

  /** The tuple is an entry of the group that counts for the relation asked about. */
  predicate IsEntry(p: Pair, t: Tuple) {
    t.objId == p.group && RelationMatches(t.relation, FilterFor(p.relation))
  }

  /** Where a tuple with a group subject leads. */
  function SubjectPair(t: Tuple): Pair {
    Pair(t.subjId, t.subjRel)
  }

  ghost predicate IsReachedBy(L: set<Tuple>, p: Pair, c: seq<Tuple>, t: Tuple) {
    c != [] && IsChain(L, c) && IsEntry(p, c[|c| - 1]) && c[0] == t
  }

  ghost predicate Reaches(L: set<Tuple>, p: Pair, t: Tuple) {
    exists c :: IsReachedBy(L, p, c, t)
  }

  ghost function Reached(L: set<Tuple>, p: Pair): set<Tuple> {
    set t | t in L && Reaches(L, p, t)
  }

  /** The entries of the groups the tuples in T lead to. */
  function Expanded(L: set<Tuple>, T: set<Tuple>): set<Tuple> {
    set t, u | t in T && u in L && Feeds(PairOf(u), t) :: u
  }

  function Entries(L: set<Tuple>, p: Pair): set<Tuple> {
    set t | t in L && IsEntry(p, t)
  }

  ghost predicate WellFormedSet(L: set<Tuple>) {
    forall t :: t in L ==> WellFormedKey(KeyOf(t))
  }

  /** On well-formed tuples the downward filter and the upward rule are one condition. */
  lemma EntryIsFeeding(t: Tuple, u: Tuple)
    requires WellFormedKey(KeyOf(t)) && t.kind == Subgroup
    ensures IsEntry(SubjectPair(t), u) <==> Feeds(PairOf(u), t)
  {
  }

  lemma ReachedClosed(L: set<Tuple>, p: Pair)
    ensures Entries(L, p) <= Reached(L, p)
    ensures Expanded(L, Reached(L, p)) <= Reached(L, p)
  {
    forall t | t in Entries(L, p) ensures t in Reached(L, p) {
      assert IsReachedBy(L, p, [t], t);
    }
    forall u | u in Expanded(L, Reached(L, p)) ensures u in Reached(L, p) {
      var t :| t in Reached(L, p) && Feeds(PairOf(u), t);
      var c :| IsReachedBy(L, p, c, t);
      assert IsReachedBy(L, p, [u] + c, u);
    }
  }

  lemma {:induction false} ChainExpands(L: set<Tuple>, p: Pair, c: seq<Tuple>, T: set<Tuple>)
    requires c != [] && IsChain(L, c) && IsEntry(p, c[|c| - 1])
    requires Entries(L, p) <= T && Expanded(L, T) <= T
    ensures c[0] in T
  {
    assert c[0] in L;
    if |c| == 1 {
      assert c[0] in Entries(L, p);
    } else {
      var rest := c[1..];
      assert forall i :: 0 <= i < |rest| ==> rest[i] == c[i + 1];
      ChainExpands(L, p, rest, T);
      assert rest[0] in T && Feeds(PairOf(c[0]), rest[0]);
      assert c[0] in Expanded(L, T);
    }
  }

  /** Reached is the least set containing the group's entries and closed under expansion. */
  lemma ReachedIsLeast(L: set<Tuple>, p: Pair, T: set<Tuple>)
    requires Entries(L, p) <= T && Expanded(L, T) <= T
    ensures Reached(L, p) <= T
  {
    forall t | t in Reached(L, p) ensures t in T {
      var c :| IsReachedBy(L, p, c, t);
      ChainExpands(L, p, c, T);
    }
  }

  /** The steps a set of tuples leads to. */
  function StepsOf(T: set<Tuple>): set<Pair> {
    set t | t in T && t.kind == Subgroup :: SubjectPair(t)
  }

  /** What a walk down from start has visited, what it found there, and the steps it may still take. */
  ghost predicate Walk(L: set<Tuple>, start: Pair, visited: set<Pair>, found: set<Tuple>, ahead: set<Pair>) {
    (forall p, t :: p in visited && t in L && IsEntry(p, t) ==> t in found)
    && found <= Reached(L, start)
    && start in visited + ahead
    && StepsOf(found) <= visited + ahead
    && visited + ahead <= Steps(L, start)
  }

  lemma StepEntriesReached(L: set<Tuple>, start: Pair, step: Pair)
    requires WellFormedSet(L)
    requires step in {start} + StepsOf(Reached(L, start))
    ensures Entries(L, step) <= Reached(L, start)
  {
    ReachedClosed(L, start);
    if step != start {
      var t :| t in Reached(L, start) && t.kind == Subgroup && SubjectPair(t) == step;
      forall u | u in Entries(L, step) ensures u in Reached(L, start) {
        EntryIsFeeding(t, u);
        assert u in Expanded(L, Reached(L, start));
      }
    }
  }

  /** Visiting one step adds its entries and the steps behind them. */
  lemma WalkAdvances(L: set<Tuple>, start: Pair, visited: set<Pair>, found: set<Tuple>, ahead: set<Pair>,
                     step: Pair, rest: set<Pair>)
    requires WellFormedSet(L)
    requires Walk(L, start, visited, found, ahead) && step in ahead && ahead == rest + {step}
    ensures Walk(L, start, visited + {step}, found + Entries(L, step), rest + StepsOf(Entries(L, step)))
  {
    StepEntriesReached(L, start, step);
    assert StepsOf(found + Entries(L, step)) == StepsOf(found) + StepsOf(Entries(L, step));
  }

  /** A step met again is dropped. */
  lemma WalkSkips(L: set<Tuple>, start: Pair, visited: set<Pair>, found: set<Tuple>, ahead: set<Pair>,
                  step: Pair, rest: set<Pair>)
    requires Walk(L, start, visited, found, ahead) && step in visited && ahead == rest + {step}
    ensures Walk(L, start, visited, found, rest)
  {
    assert visited + ahead == visited + rest;
  }

  /** Every step a walk may take. */
  ghost function Steps(L: set<Tuple>, start: Pair): set<Pair> {
    {start} + StepsOf(Reached(L, start))
  }

  lemma WalkShrinks(L: set<Tuple>, start: Pair, visited: set<Pair>, found: set<Tuple>, ahead: set<Pair>, step: Pair)
    requires Walk(L, start, visited, found, ahead) && step in ahead && step !in visited
    ensures Steps(L, start) - (visited + {step}) < Steps(L, start) - visited
  {
    assert step in Steps(L, start) - visited;
  }

  lemma SubjectTokensUnion(T1: set<Tuple>, T2: set<Tuple>)
    ensures SubjectTokens(T1 + T2) == SubjectTokens(T1) + SubjectTokens(T2)
  {
  }

  /** One tuple more: its subject's token unless it is a pattern, and the step behind it if it is a group. */
  lemma OneMoreSubject(T: set<Tuple>, t: Tuple)
    ensures SubjectTokens(T + {t})
         == SubjectTokens(T) + (if t.kind != Pattern then {MemberToken(t.kind, t.subjId, t.subjRel)} else {})
    ensures StepsOf(T + {t}) == StepsOf(T) + (if t.kind == Subgroup then {SubjectPair(t)} else {})
  {
  }

  /** A walk with nowhere left to go has found everything reached. */
  lemma WalkDone(L: set<Tuple>, start: Pair, visited: set<Pair>, found: set<Tuple>)
    requires WellFormedSet(L) && Walk(L, start, visited, found, {})
    ensures found == Reached(L, start)
  {
    forall u | u in Expanded(L, found) ensures u in found {
      var t :| t in found && u in L && Feeds(PairOf(u), t);
      EntryIsFeeding(t, u);
      assert SubjectPair(t) in StepsOf(found);
    }
    ReachedIsLeast(L, start, found);
  }

  // ── Duality ─────────────────────────────────────────────────────────────────

  /** The relation asked about, as what a person must hold for it: member means any. */
  ghost predicate HoldsIn(L: set<Tuple>, email: string, p: Pair) {
    exists q :: q in Held(L, email) && q.group == p.group && RelationMatches(q.relation, FilterFor(p.relation))
  }

  /** A person holds a relation in a group exactly when the walk down from there meets a tuple naming them. */
  lemma Duality(L: set<Tuple>, email: string, p: Pair)
    ensures HoldsIn(L, email, p) <==> exists t :: t in Reached(L, p) && Names(t, email)
  {
    if HoldsIn(L, email, p) {
      var q :| q in Held(L, email) && q.group == p.group && RelationMatches(q.relation, FilterFor(p.relation));
      var c :| IsHeldBy(L, email, c, q);
      assert c[0] in L;
      assert IsReachedBy(L, p, c, c[0]);
      assert c[0] in Reached(L, p) && Names(c[0], email);
    }
    if t :| t in Reached(L, p) && Names(t, email) {
      var c :| IsReachedBy(L, p, c, t);
      var q := PairOf(c[|c| - 1]);
      assert IsHeldBy(L, email, c, q);
      HeldHasChain(L, email, q);
      assert q in Held(L, email);
    }
  }

  /** The subjects of tuples as tokens, pattern rules left out. */
  function SubjectTokens(T: set<Tuple>): set<string> {
    set t | t in T && t.kind != Pattern :: MemberToken(t.kind, t.subjId, t.subjRel)
  }

  /** The tokens GetAllMembers lists. */
  ghost function MemberTokens(L: set<Tuple>, p: Pair): set<string> {
    SubjectTokens(Reached(L, p))
  }

  lemma UserTokenListed(L: set<Tuple>, p: Pair, email: string)
    ensures BuildToken(User, email) in MemberTokens(L, p)
            <==> exists t :: t in Reached(L, p) && t.kind == User && t.subjId == email
  {
    var token := BuildToken(User, email);
    if token in MemberTokens(L, p) {
      var t :| t in Reached(L, p) && t.kind != Pattern && MemberToken(t.kind, t.subjId, t.subjRel) == token;
      KindOfToken(t.kind, t.subjId, t.subjRel);
      KindOfToken(User, email, "");
      assert t.kind == User;
      assert token[|USER_PREFIX|..] == email;
      assert BuildToken(User, t.subjId)[|USER_PREFIX|..] == t.subjId;
    }
    if t :| t in Reached(L, p) && t.kind == User && t.subjId == email {
      assert MemberToken(t.kind, t.subjId, t.subjRel) == token;
    }
  }

  /** Whoever a group lists holds it, patterns or not. */
  lemma ListedHolds(L: set<Tuple>, email: string, p: Pair)
    requires BuildToken(User, email) in MemberTokens(L, p)
    ensures HoldsIn(L, email, p)
  {
    UserTokenListed(L, p, email);
    Duality(L, email, p);
  }

  /** Whoever holds a group without being listed there does so through a pattern the walk down meets. */
  lemma UnlistedThroughPattern(L: set<Tuple>, email: string, p: Pair)
    requires HoldsIn(L, email, p) && BuildToken(User, email) !in MemberTokens(L, p)
    ensures exists t :: t in Reached(L, p) && t.kind == Pattern && GlobMatches(t.subjId, email)
  {
    UserTokenListed(L, p, email);
    Duality(L, email, p);
  }

  /** Without pattern tuples, being listed and holding are the same. */
  lemma ListedIffHolds(L: set<Tuple>, email: string, p: Pair)
    requires forall t :: t in L ==> t.kind != Pattern
    ensures BuildToken(User, email) in MemberTokens(L, p) <==> HoldsIn(L, email, p)
  {
    UserTokenListed(L, p, email);
    Duality(L, email, p);
  }
}
