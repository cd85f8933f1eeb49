// How the pairs a person holds are printed as tokens (internal/storage/memory.go:398-412).
module UserTokens {
  import opened Sequences
  import opened Tokens
  import opened Tuples
  import opened Resolution

  function GroupsOf(order: seq<Pair>): set<string> {
    set p | p in order :: p.group
  }

  /** One plain token per group, at the group's first pair. */
  function Memberships(order: seq<Pair>): seq<string> {
    if order == [] then []
    else
      var init, p := order[..|order| - 1], order[|order| - 1];
      Memberships(init) + if p.group in GroupsOf(init) then [] else [GROUP_PREFIX + p.group]
  }

  /** One token per relation beyond membership. */
  function Relations(order: seq<Pair>): seq<string> {
    if order == [] then []
    else
      var init, p := order[..|order| - 1], order[|order| - 1];
      Relations(init) + if p.relation == MEMBER then [] else [GroupToken(p.group, p.relation)]
  }

  function Rendered(email: string, order: seq<Pair>): seq<string> {
    [USER_PREFIX + email] + Memberships(order) + Relations(order)
  }

  /** The two passes over the pairs, memberships before relations. */
  method Render(email: string, order: seq<Pair>) returns (tokens: seq<string>)
    ensures tokens == Rendered(email, order)
  {
    var memberships: seq<string> := [];
    var seen: set<string> := {};
    for i := 0 to |order|
      invariant seen == GroupsOf(order[..i]) && memberships == Memberships(order[..i])
    {
      TakeMore(order, i);
      if order[i].group !in seen {
        seen, memberships := seen + {order[i].group}, memberships + [GROUP_PREFIX + order[i].group];
      }
    }
    var relations: seq<string> := [];
    for i := 0 to |order|
      invariant relations == Relations(order[..i])
    {
      TakeMore(order, i);
      if order[i].relation != MEMBER {
        relations := relations + [GroupToken(order[i].group, order[i].relation)];
      }
    }
    assert order[..|order|] == order;
    tokens := [USER_PREFIX + email] + memberships + relations;
  }

  function MembershipTokens(S: set<Pair>): set<string> {
    set p | p in S :: GROUP_PREFIX + p.group
  }

  function RelationTokens(S: set<Pair>): set<string> {
    set p | p in S && p.relation != MEMBER :: GroupToken(p.group, p.relation)
  }

  /** The tokens of a person holding the pairs in S. */
  function TokensFor(email: string, S: set<Pair>): set<string> {
    {USER_PREFIX + email} + MembershipTokens(S) + RelationTokens(S)
  }

  lemma {:induction false} MembershipsElements(order: seq<Pair>)
    ensures Elements(Memberships(order)) == MembershipTokens(Elements(order))
  {
    if order != [] {
      var init, p := order[..|order| - 1], order[|order| - 1];
      MembershipsElements(init);
      assert order == init + [p];
      ElementsConcat(init, [p]);
      assert MembershipTokens(Elements(order)) == MembershipTokens(Elements(init)) + {GROUP_PREFIX + p.group};
      if p.group in GroupsOf(init) {
        var q :| q in init && q.group == p.group;
        assert GROUP_PREFIX + q.group in MembershipTokens(Elements(init));
      } else {
        ElementsConcat(Memberships(init), [GROUP_PREFIX + p.group]);
      }
    }
  }

  lemma {:induction false} RelationsElements(order: seq<Pair>)
    ensures Elements(Relations(order)) == RelationTokens(Elements(order))
  {
    if order != [] {
      var init, p := order[..|order| - 1], order[|order| - 1];
      RelationsElements(init);
      assert order == init + [p];
      ElementsConcat(init, [p]);
      if p.relation == MEMBER {
        assert RelationTokens(Elements(order)) == RelationTokens(Elements(init));
      } else {
        ElementsConcat(Relations(init), [GroupToken(p.group, p.relation)]);
        assert RelationTokens(Elements(order)) == RelationTokens(Elements(init)) + {GroupToken(p.group, p.relation)};
      }
    }
  }

  /** Whatever the order the pairs were found in, the tokens are the same set. */
  lemma RenderedElements(email: string, order: seq<Pair>)
    ensures Elements(Rendered(email, order)) == TokensFor(email, Elements(order))
  {
    MembershipsElements(order);
    RelationsElements(order);
    ElementsConcat([USER_PREFIX + email], Memberships(order));
    ElementsConcat([USER_PREFIX + email] + Memberships(order), Relations(order));
  }

  /** Pairs whose groups carry no separator and whose relations are named. */
  predicate Printable(order: seq<Pair>) {
    forall p :: p in order ==> '#' !in p.group && p.relation != ""
  }

  lemma {:induction false} MembershipsNoDuplicates(order: seq<Pair>)
    ensures NoDuplicates(Memberships(order))
    ensures forall token :: token in Memberships(order) ==> exists p :: p in order && token == GROUP_PREFIX + p.group
  {
    if order != [] {
      var init, p := order[..|order| - 1], order[|order| - 1];
      MembershipsNoDuplicates(init);
      assert order == init + [p];
      if p.group !in GroupsOf(init) {
        forall token | token in Memberships(init)
          ensures token != GROUP_PREFIX + p.group
        {
          var q :| q in init && token == GROUP_PREFIX + q.group;
          assert token[|GROUP_PREFIX|..] == q.group;
          assert (GROUP_PREFIX + p.group)[|GROUP_PREFIX|..] == p.group;
        }
        NoDuplicatesConcat(Memberships(init), [GROUP_PREFIX + p.group]);
      }
    }
  }

  lemma {:induction false} RelationsNoDuplicates(order: seq<Pair>)
    requires NoDuplicates(order) && Printable(order)
    ensures NoDuplicates(Relations(order))
    ensures forall token :: token in Relations(order) ==>
              exists p :: p in order && p.relation != MEMBER && token == GroupToken(p.group, p.relation)
  {
    if order != [] {
      var init, p := order[..|order| - 1], order[|order| - 1];
      RelationsNoDuplicates(init);
      assert order == init + [p];
      if p.relation != MEMBER {
        forall token | token in Relations(init)
          ensures token != GroupToken(p.group, p.relation)
        {
          var q :| q in init && q.relation != MEMBER && token == GroupToken(q.group, q.relation);
          if token == GroupToken(p.group, p.relation) {
            GroupTokenInjective(p.group, p.relation, q.group, q.relation);
          }
        }
        NoDuplicatesConcat(Relations(init), [GroupToken(p.group, p.relation)]);
      }
    }
  }

  /** For printable pairs no token is listed twice. */
  lemma RenderedNoDuplicates(email: string, order: seq<Pair>)
    requires NoDuplicates(order) && Printable(order)
    ensures NoDuplicates(Rendered(email, order))
  {
    MembershipsNoDuplicates(order);
    RelationsNoDuplicates(order);
    forall a, b | a in Memberships(order) && b in Relations(order)
      ensures a != b
    {
      var p :| p in order && a == GROUP_PREFIX + p.group;
      var q :| q in order && q.relation != MEMBER && b == GroupToken(q.group, q.relation);
      assert a == GroupToken(p.group, MEMBER);
      if a == b {
        GroupTokenInjective(p.group, MEMBER, q.group, q.relation);
      }
    }
    NoDuplicatesConcat(Memberships(order), Relations(order));
    forall token | token in Memberships(order) + Relations(order)
      ensures token != USER_PREFIX + email
    {
      assert token[0] == 'g';
    }
    NoDuplicatesConcat([USER_PREFIX + email], Memberships(order) + Relations(order));
    assert Rendered(email, order) == [USER_PREFIX + email] + (Memberships(order) + Relations(order));
  }

  // ── Duality of the printed answers ──────────────────────────────────────────

  /** Groups carry no separator and relations are named, as every stored tuple has it. */
  ghost predicate PrintableTuples(L: set<Tuple>) {
    forall t :: t in L ==> '#' !in t.objId && t.relation != ""
  }

  /**
   * A person holds a relation exactly when the token for it is among theirs; for member, when the group's plain token
   * is.
   */
  lemma HoldsIffToken(L: set<Tuple>, email: string, group: string, relation: string)
    requires PrintableTuples(L) && '#' !in group
    ensures HoldsIn(L, email, Pair(group, NormalizeRelation(relation)))
            <==> GroupToken(group, relation) in TokensFor(email, Held(L, email))
  {
    var token, held := GroupToken(group, relation), Held(L, email);
    assert token[0] == 'g' && (USER_PREFIX + email)[0] == 'u';
    if q :| q in held && q.group == group && RelationMatches(q.relation, FilterFor(NormalizeRelation(relation))) {
      if NormalizeRelation(relation) == MEMBER {
        assert token == GROUP_PREFIX + q.group;
      } else {
        assert token == GroupToken(q.group, q.relation);
      }
    }
    if token in MembershipTokens(held) {
      var q :| q in held && token == GROUP_PREFIX + q.group;
      assert token == GroupToken(q.group, MEMBER);
      GroupTokenInjective(group, relation, q.group, MEMBER);
    }
    if token in RelationTokens(held) {
      var q :| q in held && q.relation != MEMBER && token == GroupToken(q.group, q.relation);
      GroupTokenInjective(group, relation, q.group, q.relation);
    }
  }

  /** Whoever a group's answer lists is answered the group's token, patterns or not. */
  lemma ListedHasToken(L: set<Tuple>, email: string, group: string, relation: string)
    requires PrintableTuples(L) && '#' !in group
    requires BuildToken(User, email) in MemberTokens(L, Pair(group, NormalizeRelation(relation)))
    ensures GroupToken(group, relation) in TokensFor(email, Held(L, email))
  {
    ListedHolds(L, email, Pair(group, NormalizeRelation(relation)));
    HoldsIffToken(L, email, group, relation);
  }

  /** Without pattern tuples the two answers are the two sides of one relation. */
  lemma ListedIffToken(L: set<Tuple>, email: string, group: string, relation: string)
    requires PrintableTuples(L) && '#' !in group && forall t :: t in L ==> t.kind != Pattern
    ensures BuildToken(User, email) in MemberTokens(L, Pair(group, NormalizeRelation(relation)))
            <==> GroupToken(group, relation) in TokensFor(email, Held(L, email))
  {
    ListedIffHolds(L, email, Pair(group, NormalizeRelation(relation)));
    HoldsIffToken(L, email, group, relation);
  }
}
