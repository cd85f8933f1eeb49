// The two answers as rules over the columns of stored rows: what one row grants,
// to whom, and until when (internal/storage/memory.go:19-40, 324-413). Resolution
// says the same by chains; the lemmas here connect the two.
module Rules {
  import opened Tokens
  import opened Patterns
  import opened Tuples
  import opened Resolution
  import opened UserTokens

  /** The row counts at this moment: it has no end, or its end is still to come. */
  predicate InForce(t: Tuple, now: Instant) {
    match t.expires
    case None => true
    case Some(end) => now < end
  }

  /**
   * The person has the relation in the group through at most n groups in between: a row in force says so of their
   * address, of a pattern their address fits, or of a group they are in, under any relation if the row names plain
   * membership there and else under the one it names.
   */
  ghost predicate Has(ts: seq<Tuple>, now: Instant, email: string, group: string, relation: string, n: nat)
    decreases n, 1
  {
    exists t :: t in ts && InForce(t, now) && t.objId == group && t.relation == relation && Grants(ts, now, email, t, n)
  }

  /** What the row says of its subject is true of the person. */
  ghost predicate Grants(ts: seq<Tuple>, now: Instant, email: string, t: Tuple, n: nat)
    decreases n, 0
  {
    match t.kind
    case User => t.subjId == email
    case Pattern => GlobMatches(t.subjId, email)
    case Subgroup => n > 0 && IsIn(ts, now, email, t.subjId, t.subjRel, n - 1)
  }

  /** Plain membership asks for any relation, another one for itself. */
  ghost predicate IsIn(ts: seq<Tuple>, now: Instant, email: string, group: string, relation: string, n: nat)
    decreases n, 2
  {
    exists r :: (relation == MEMBER || relation == r) && Has(ts, now, email, group, r, n)
  }

  lemma {:induction false} ChainHas(ts: seq<Tuple>, now: Instant, email: string, c: seq<Tuple>)
    requires c != [] && IsChain(LiveTuples(ts, now), c) && Names(c[0], email)
    ensures Has(ts, now, email, c[|c| - 1].objId, c[|c| - 1].relation, |c| - 1)
  {
    var t := c[|c| - 1];
    assert t in LiveTuples(ts, now);
    if |c| == 1 {
      assert Grants(ts, now, email, t, 0);
    } else {
      var init := c[..|c| - 1];
      ChainHas(ts, now, email, init);
      assert Feeds(PairOf(init[|init| - 1]), t);
      assert IsIn(ts, now, email, t.subjId, t.subjRel, |c| - 2);
      assert Grants(ts, now, email, t, |c| - 1);
    }
  }

  lemma {:induction false} HasHeld(ts: seq<Tuple>, now: Instant, email: string, group: string, relation: string, n: nat)
    requires Has(ts, now, email, group, relation, n)
    ensures Pair(group, relation) in Held(LiveTuples(ts, now), email)
    decreases n
  {
    var L := LiveTuples(ts, now);
    var t :| t in ts && InForce(t, now) && t.objId == group && t.relation == relation && Grants(ts, now, email, t, n);
    assert t in L;
    HeldClosed(L, email);
    if t.kind == Subgroup {
      var m := n - 1;
      assert IsIn(ts, now, email, t.subjId, t.subjRel, m);
      var r :| (t.subjRel == MEMBER || t.subjRel == r) && Has(ts, now, email, t.subjId, r, m);
      HasHeld(ts, now, email, t.subjId, r, m);
      assert Feeds(Pair(t.subjId, r), t);
      assert PairOf(t) in Passed(L, Held(L, email));
    } else {
      assert PairOf(t) in Seeds(L, email);
    }
  }

  /** What a person holds is what the rule gives them, through any number of groups. */
  lemma HeldByRule(ts: seq<Tuple>, now: Instant, email: string, group: string, relation: string)
    ensures Pair(group, relation) in Held(LiveTuples(ts, now), email)
            <==> exists n :: Has(ts, now, email, group, relation, n)
  {
    var p := Pair(group, relation);
    if p in Held(LiveTuples(ts, now), email) {
      var c :| IsHeldBy(LiveTuples(ts, now), email, c, p);
      ChainHas(ts, now, email, c);
      assert Has(ts, now, email, group, relation, |c| - 1);
    }
    if n: nat :| Has(ts, now, email, group, relation, n) {
      HasHeld(ts, now, email, group, relation, n);
    }
  }

  /** The tokens a person is answered: their own, one per group, and one per relation that is more than membership. */
  ghost predicate AnsweredTo(ts: seq<Tuple>, now: Instant, email: string, token: string) {
    token == USER_PREFIX + email
    || exists group, relation, n ::
         Has(ts, now, email, group, relation, n)
         && (token == GROUP_PREFIX + group || (relation != MEMBER && token == GroupToken(group, relation)))
  }

  lemma TokensByRule(ts: seq<Tuple>, now: Instant, email: string, token: string)
    ensures token in TokensFor(email, Held(LiveTuples(ts, now), email)) <==> AnsweredTo(ts, now, email, token)
  {
    var held := Held(LiveTuples(ts, now), email);
    if token in MembershipTokens(held) + RelationTokens(held) {
      var p :| p in held
               && (token == GROUP_PREFIX + p.group
                   || (p.relation != MEMBER && token == GroupToken(p.group, p.relation)));
      HeldByRule(ts, now, email, p.group, p.relation);
      var n: nat :| Has(ts, now, email, p.group, p.relation, n);
    }
    if group, relation, n: nat :|
      Has(ts, now, email, group, relation, n)
      && (token == GROUP_PREFIX + group || (relation != MEMBER && token == GroupToken(group, relation)))
    {
      HasHeld(ts, now, email, group, relation, n);
      var p := Pair(group, relation);
      assert p in held && p.group == group && p.relation == relation;
    }
  }

  // ── Whom a group counts ─────────────────────────────────────────────────────

  /**
   * The group lists the row among its entries of a relation through at most n groups in between; plain membership
   * counts every entry, whatever its relation.
   */
  ghost predicate ListsRow(ts: seq<Tuple>, now: Instant, group: string, relation: string, t: Tuple, n: nat)
    decreases n
  {
    exists u ::
      u in ts && InForce(u, now) && u.objId == group && (relation == MEMBER || u.relation == relation)
      && (u == t || (n > 0 && u.kind == Subgroup && ListsRow(ts, now, u.subjId, u.subjRel, t, n - 1)))
  }

  lemma {:induction false} ChainLists(ts: seq<Tuple>, now: Instant, group: string, relation: string, c: seq<Tuple>)
    requires WellFormed(ts) && relation != ""
    requires c != [] && IsChain(LiveTuples(ts, now), c) && IsEntry(Pair(group, relation), c[|c| - 1])
    ensures ListsRow(ts, now, group, relation, c[0], |c| - 1)
    decreases |c|
  {
    var u := c[|c| - 1];
    assert u in LiveTuples(ts, now);
    if |c| > 1 {
      var init := c[..|c| - 1];
      assert Feeds(PairOf(init[|init| - 1]), u);
      EntryIsFeeding(u, init[|init| - 1]);
      ChainLists(ts, now, u.subjId, u.subjRel, init);
    }
  }

  lemma {:induction false} ListsChain(ts: seq<Tuple>, now: Instant, group: string, relation: string, t: Tuple, n: nat)
    returns (c: seq<Tuple>)
    requires WellFormed(ts) && relation != "" && ListsRow(ts, now, group, relation, t, n)
    ensures IsReachedBy(LiveTuples(ts, now), Pair(group, relation), c, t)
    decreases n
  {
    var u :| u in ts && InForce(u, now) && u.objId == group && (relation == MEMBER || u.relation == relation)
             && (u == t || (n > 0 && u.kind == Subgroup && ListsRow(ts, now, u.subjId, u.subjRel, t, n - 1)));
    assert u in LiveTuples(ts, now) && IsEntry(Pair(group, relation), u);
    if u == t {
      c := [t];
    } else {
      var init := ListsChain(ts, now, u.subjId, u.subjRel, t, n - 1);
      EntryIsFeeding(u, init[|init| - 1]);
      c := init + [u];
    }
  }

  lemma ReachedByRule(ts: seq<Tuple>, now: Instant, group: string, relation: string, t: Tuple)
    requires WellFormed(ts) && relation != ""
    ensures t in Reached(LiveTuples(ts, now), Pair(group, relation))
            <==> exists n :: ListsRow(ts, now, group, relation, t, n)
  {
    var L, p := LiveTuples(ts, now), Pair(group, relation);
    if t in Reached(L, p) {
      var c :| IsReachedBy(L, p, c, t);
      ChainLists(ts, now, group, relation, c);
      assert ListsRow(ts, now, group, relation, t, |c| - 1);
    }
    if n: nat :| ListsRow(ts, now, group, relation, t, n) {
      var c := ListsChain(ts, now, group, relation, t, n);
      assert c[0] in L;
    }
  }

  /** The tokens a group answers: the people and groups of the rows it lists, patterns left out. */
  ghost predicate CountedIn(ts: seq<Tuple>, now: Instant, group: string, relation: string, token: string) {
    exists t, n ::
      ListsRow(ts, now, group, relation, t, n)
      && ((t.kind == User && token == USER_PREFIX + t.subjId)
          || (t.kind == Subgroup && token == GroupToken(t.subjId, t.subjRel)))
  }

  lemma MembersByRule(ts: seq<Tuple>, now: Instant, group: string, relation: string, token: string)
    requires WellFormed(ts) && relation != ""
    ensures token in MemberTokens(LiveTuples(ts, now), Pair(group, relation))
            <==> CountedIn(ts, now, group, relation, token)
  {
    var reached := Reached(LiveTuples(ts, now), Pair(group, relation));
    if token in SubjectTokens(reached) {
      var t :| t in reached && t.kind != Pattern && MemberToken(t.kind, t.subjId, t.subjRel) == token;
      ReachedByRule(ts, now, group, relation, t);
      var n: nat :| ListsRow(ts, now, group, relation, t, n);
    }
    if t, n: nat :|
      ListsRow(ts, now, group, relation, t, n)
      && ((t.kind == User && token == USER_PREFIX + t.subjId)
          || (t.kind == Subgroup && token == GroupToken(t.subjId, t.subjRel)))
    {
      assert ListsRow(ts, now, group, relation, t, n);
      ReachedByRule(ts, now, group, relation, t);
      assert t in reached;
      assert t.kind == User ==> MemberToken(t.kind, t.subjId, t.subjRel) == BuildToken(User, t.subjId);
      assert MemberToken(t.kind, t.subjId, t.subjRel) == token;
    }
  }
}
