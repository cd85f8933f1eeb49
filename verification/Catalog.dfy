// The cached group search (internal/catalog/cache.go).
module Catalog {
  import opened Sequences
  import opened Text
  import opened Tokens
  import opened Validate
  import opened Tuples
  import opened Sort
  import opened Query

  /** A group as the catalog knows it, with the relations someone holds in it. */
  datatype Entry = Entry(id: string, displayName: string, description: string, sourceName: string,
                         relations: seq<string>)

  /** A group's relation presented as a search result. */
  function RelationEntry(g: Entry, relation: string): Entry {
    var id := g.id + "#" + relation;
    var description := if g.description == "" then g.displayName else g.description;
    Entry(id, id, TrimSpace(description + " \U{B7} Rolle: " + relation), g.sourceName, [])
  }

  function BaseFields(g: Entry): seq<string> {
    [Fold(g.id), Fold(g.displayName), Fold(g.description), Fold(g.sourceName)]
  }

  function RelationFields(g: Entry, relation: string): seq<string> {
    BaseFields(g) + [Fold(relation), Fold(g.id) + "#" + Fold(relation)]
  }

  /** Something a search may offer: an entry and the fields it is found by. */
  datatype Offer = Offer(entry: Entry, fields: seq<string>)

  function RelationOffers(g: Entry, relations: seq<string>): seq<Offer> {
    seq(|relations|, i requires 0 <= i < |relations| =>
          Offer(RelationEntry(g, relations[i]), RelationFields(g, relations[i])))
  }

  /** A group itself, then each of its relations. */
  function OffersOf(g: Entry): seq<Offer> {
    [Offer(g, BaseFields(g))] + RelationOffers(g, g.relations)
  }

  function Offers(groups: seq<Entry>): seq<Offer> {
    if groups == [] then [] else Offers(groups[..|groups| - 1]) + OffersOf(groups[|groups| - 1])
  }

  datatype Hit = Hit(entry: Entry, score: int)

  /** The query's number of matching terms; an exact id goes ahead of everything. */
  function HitFor(clauses: seq<Clause>, o: Offer): Hit {
    Hit(o.entry, TotalCount(clauses, o.fields) + if IsExact(clauses, Fold(o.entry.id)) then 1000 else 0)
  }

  ghost function HitsAmong(clauses: seq<Clause>, offers: seq<Offer>): seq<Hit> {
    if offers == [] then []
    else
      var last := offers[|offers| - 1];
      HitsAmong(clauses, offers[..|offers| - 1])
      + if Satisfies(clauses, last.fields) then [HitFor(clauses, last)] else []
  }

  /** Higher scores first, then ids. */
  predicate HitLeq(a: Hit, b: Hit) {
    a.score > b.score || (a.score == b.score && Leq(a.entry.id, b.entry.id))
  }

  predicate IdLeq(a: Entry, b: Entry) {
    Leq(a.id, b.id)
  }

  function EntriesOf(hits: seq<Hit>): seq<Entry> {
    seq(|hits|, i requires 0 <= i < |hits| => hits[i].entry)
  }

  function Limited<T>(s: seq<T>, limit: int): seq<T> {
    if 0 < limit < |s| then s[..limit] else s
  }

  class GroupCache {
    var groups: seq<Entry>

    constructor ()
      ensures groups == []
    {
      groups := [];
    }

    /** Replaces the snapshot by what the store has now, ordered by id. */
    method Refresh(loaded: seq<Entry>)
      modifies this
      ensures multiset(groups) == multiset(loaded) && IsSorted(groups, IdLeq)
    {
      groups := Sorted(loaded, IdLeq);
      IdLeqTotal();
      SortedIsSorted(loaded, IdLeq);
    }

    method Search(raw: string, limit: int) returns (out: seq<Entry>)
      ensures var clauses := ParseWords(NOTHING, Words(raw)).clauses;
              out == if clauses == [] then Limited(groups, limit)
                     else EntriesOf(Limited(Sorted(HitsAmong(clauses, Offers(groups)), HitLeq), limit))
    {
      var clauses := ParseQuery(raw);
      if clauses == [] {
        return Limited(groups, limit);
      }
      var hits: seq<Hit> := [];
      for i := 0 to |groups|
        invariant hits == HitsAmong(clauses, Offers(groups[..i]))
      {
        var g := groups[i];
        hits := ConsiderGroup(clauses, Offers(groups[..i]), hits, g);
        assert groups[..i + 1][..i] == groups[..i];
      }
      assert groups[..|groups|] == groups;
      return EntriesOf(Limited(Sorted(hits, HitLeq), limit));
    }

    /** One offer: left out, or listed with its score. */
    method Consider(clauses: seq<Clause>, hits: seq<Hit>, o: Offer) returns (more: seq<Hit>)
      ensures more == hits + if Satisfies(clauses, o.fields) then [HitFor(clauses, o)] else []
    {
      var n := Score(clauses, o.fields);
      if n < 0 {
        return hits;
      }
      if IsExact(clauses, Fold(o.entry.id)) {
        n := n + 1000;
      }
      return hits + [Hit(o.entry, n)];
    }

    /** One group and its relations. */
    method ConsiderGroup(clauses: seq<Clause>, ghost before: seq<Offer>, hits: seq<Hit>, g: Entry)
      returns (more: seq<Hit>)
      requires hits == HitsAmong(clauses, before)
      ensures more == HitsAmong(clauses, before + OffersOf(g))
    {
      var offers := OffersOf(g);
      more := hits;
      ghost var sofar := before;
      for i := 0 to |offers|
        invariant sofar == before + offers[..i] && more == HitsAmong(clauses, sofar)
      {
        more := Consider(clauses, more, offers[i]);
        HitsOneMore(clauses, sofar, offers[i]);
        TakeMore(offers, i);
        ConcatAssociative(before, offers[..i], [offers[i]]);
        sofar := sofar + [offers[i]];
      }
      assert offers[..|offers|] == offers;
    }
  }

  lemma HitsOneMore(clauses: seq<Clause>, offers: seq<Offer>, o: Offer)
    ensures HitsAmong(clauses, offers + [o])
         == HitsAmong(clauses, offers) + if Satisfies(clauses, o.fields) then [HitFor(clauses, o)] else []
  {
    assert (offers + [o])[..|offers|] == offers;
  }

  lemma HitLeqTotal()
    ensures IsTotalPreorder(HitLeq)
  {
    forall a, b ensures HitLeq(a, b) || HitLeq(b, a) {
      LeqTotal(a.entry.id, b.entry.id);
    }
    forall a, b, c | HitLeq(a, b) && HitLeq(b, c) ensures HitLeq(a, c) {
      if a.score == b.score == c.score {
        LeqTransitive(a.entry.id, b.entry.id, c.entry.id);
      }
    }
  }

  lemma IdLeqTotal()
    ensures IsTotalPreorder(IdLeq)
  {
    forall a, b ensures IdLeq(a, b) || IdLeq(b, a) {
      LeqTotal(a.id, b.id);
    }
    forall a, b, c | IdLeq(a, b) && IdLeq(b, c) ensures IdLeq(a, c) {
      LeqTransitive(a.id, b.id, c.id);
    }
  }

  // ── What a search answers ───────────────────────────────────────────────────

  /** The hits are the offers every clause is met by, each with its score. */
  lemma {:induction false} HitsAreMatches(clauses: seq<Clause>, offers: seq<Offer>, h: Hit)
    ensures h in HitsAmong(clauses, offers)
            <==> exists o :: o in offers && Satisfies(clauses, o.fields) && h == HitFor(clauses, o)
  {
    if offers != [] {
      var init, last := offers[..|offers| - 1], offers[|offers| - 1];
      HitsAreMatches(clauses, init, h);
      assert offers == init + [last];
    }
  }

  /** A non-empty query without a limit lists exactly the matching groups and relations, by score and then id. */
  lemma SearchAnswers(groups: seq<Entry>, clauses: seq<Clause>, e: Entry)
    ensures var hits := Sorted(HitsAmong(clauses, Offers(groups)), HitLeq);
            IsSorted(hits, HitLeq)
            && (e in EntriesOf(hits)
                <==> exists o :: o in Offers(groups) && Satisfies(clauses, o.fields) && o.entry == e)
  {
    var found := HitsAmong(clauses, Offers(groups));
    var hits := Sorted(found, HitLeq);
    HitLeqTotal();
    SortedIsSorted(found, HitLeq);
    SameElements(found, hits);
    if e in EntriesOf(hits) {
      var i :| 0 <= i < |hits| && hits[i].entry == e;
      assert hits[i] in found;
      HitsAreMatches(clauses, Offers(groups), hits[i]);
    }
    if o :| o in Offers(groups) && Satisfies(clauses, o.fields) && o.entry == e {
      HitsAreMatches(clauses, Offers(groups), HitFor(clauses, o));
      var i :| 0 <= i < |hits| && hits[i] == HitFor(clauses, o);
      assert EntriesOf(hits)[i] == e;
    }
  }

  lemma SameElements<T>(s: seq<T>, t: seq<T>)
    requires multiset(s) == multiset(t)
    ensures forall x :: x in s <==> x in t
  {
    forall x ensures x in s <==> x in t {
      assert x in multiset(s) <==> x in multiset(t);
    }
  }

  /** A limit cuts the same answer short. */
  lemma LimitIsPrefix(hits: seq<Hit>, limit: int)
    ensures EntriesOf(Limited(hits, limit)) <= EntriesOf(hits)
    ensures limit > 0 ==> |EntriesOf(Limited(hits, limit))| == if limit < |hits| then limit else |hits|
    ensures limit <= 0 ==> EntriesOf(Limited(hits, limit)) == EntriesOf(hits)
  {
    assert EntriesOf(hits)[..|Limited(hits, limit)|] == EntriesOf(Limited(hits, limit));
  }

  // ── A pasted token comes first ──────────────────────────────────────────────

  /** With one term a score is one at most. */
  lemma OneTermScore(clauses: seq<Clause>, fields: seq<string>)
    requires |clauses| == 1 && |clauses[0]| == 1
    ensures TotalCount(clauses, fields) == if Matches(clauses[0][0], fields) then 1 else 0
    ensures Satisfies(clauses, fields) <==> Matches(clauses[0][0], fields)
  {
    assert clauses[..0] == [] && clauses[0][..0] == [];
    assert clauses[0] in clauses && clauses[0][0] in clauses[0];
    assert TotalCount(clauses[..0], fields) == 0;
    assert MatchCount(clauses[0][..0], fields) == 0;
  }

  /** Whatever stands first is an exact match, once there is one among the hits. */
  lemma ExactFirst(clauses: seq<Clause>, offers: seq<Offer>, o: Offer)
    requires o in offers && IsExact(clauses, Fold(o.entry.id)) && Satisfies(clauses, o.fields)
    ensures var hits := Sorted(HitsAmong(clauses, offers), HitLeq);
            hits != [] && IsExact(clauses, Fold(hits[0].entry.id))
  {
    var found := HitsAmong(clauses, offers);
    var hits := Sorted(found, HitLeq);
    HitLeqTotal();
    SortedIsSorted(found, HitLeq);
    SameElements(found, hits);
    HitsAreMatches(clauses, offers, HitFor(clauses, o));
    var i :| 0 <= i < |hits| && hits[i] == HitFor(clauses, o);
    OneTermScore(clauses, o.fields);
    assert i == 0 || HitLeq(hits[0], hits[i]);
    assert hits[0] in found;
    HitsAreMatches(clauses, offers, hits[0]);
    var first :| first in offers && Satisfies(clauses, first.fields) && hits[0] == HitFor(clauses, first);
    OneTermScore(clauses, first.fields);
  }

  /** An id is part of itself, so the offers of an id can be found by it. */
  lemma IdFound(id: string, fields: seq<string>)
    requires id in fields
    ensures Matches(Term(id, false), fields)
  {
    assert id[0..] == id;
    assert Text.Contains(id, id);
    assert MatchesField(Term(id, false), id);
  }

  lemma {:induction false} OfferListed(groups: seq<Entry>, g: Entry, o: Offer)
    requires g in groups && o in OffersOf(g)
    ensures o in Offers(groups)
  {
    var init, last := groups[..|groups| - 1], groups[|groups| - 1];
    assert groups == init + [last];
    if g in init {
      OfferListed(init, g, o);
    }
  }

  /** Ids of offers are told apart by the spelling they are compared in. */
  predicate IdsFolded(groups: seq<Entry>) {
    forall o :: o in Offers(groups) ==> IsEntryId(o.entry.id)
  }

  /** A pasted "group:<id>", or "group:<id>#<relation>" someone holds, comes first, with any limit. */
  lemma PastedTokenFirst(groups: seq<Entry>, g: Entry, o: Offer, limit: int)
    requires IdsFolded(groups) && g in groups && o in OffersOf(g)
    requires forall r :: r in g.relations ==> IsEntryId(r)
    ensures var clauses := ParseWords(NOTHING, Words(GROUP_PREFIX + o.entry.id)).clauses;
            var out := EntriesOf(Limited(Sorted(HitsAmong(clauses, Offers(groups)), HitLeq), limit));
            clauses != [] && out != [] && out[0].id == o.entry.id
  {
    var id := o.entry.id;
    var clauses := ParseWords(NOTHING, Words(GROUP_PREFIX + id)).clauses;
    OfferListed(groups, g, o);
    TokenIsExact(id);
    FoldKeeps(id);
    OwnIdAmongFields(groups, g, o);
    IdFound(id, o.fields);
    assert clauses[0][0] == Term(id, false);
    OneTermScore(clauses, o.fields);
    ExactFirst(clauses, Offers(groups), o);
    var found := HitsAmong(clauses, Offers(groups));
    var hits := Sorted(found, HitLeq);
    HitLeqTotal();
    SortedIsSorted(found, HitLeq);
    SameElements(found, hits);
    assert hits[0] in found;
    HitsAreMatches(clauses, Offers(groups), hits[0]);
    FoldKeeps(hits[0].entry.id);
    assert EntriesOf(Limited(hits, limit))[0] == hits[0].entry;
  }

  lemma RelationIdAmongFields(g: Entry, relation: string)
    requires IsEntryId(g.id) && IsEntryId(relation)
    ensures RelationEntry(g, relation).id in RelationFields(g, relation)
  {
    FoldKeeps(g.id);
    FoldKeeps(relation);
    assert RelationFields(g, relation)[5] == g.id + "#" + relation;
  }

  lemma OwnIdAmongFields(groups: seq<Entry>, g: Entry, o: Offer)
    requires IdsFolded(groups) && g in groups && o in OffersOf(g)
    requires forall r :: r in g.relations ==> IsEntryId(r)
    ensures o.entry.id in o.fields
  {
    var base := Offer(g, BaseFields(g));
    assert base in OffersOf(g);
    OfferListed(groups, g, base);
    FoldKeeps(g.id);
    if o == base {
      assert o.fields[0] == g.id;
    } else {
      var i :| 0 <= i < |g.relations| && o == RelationOffers(g, g.relations)[i];
      assert g.relations[i] in g.relations;
      RelationIdAmongFields(g, g.relations[i]);
    }
  }

  lemma GroupIdIsEntryId(id: string)
    requires ValidGroupId(id)
    ensures IsEntryId(id)
  {
    forall c | c in id
      ensures LowerChar(c) == c && FoldChar(c) == [c] && !IsSpace(c) && c != '*' && c != '"'
    {
      assert IsGroupIdChar(c);
    }
  }

  lemma RelationIsEntryId(relation: string)
    requires ValidRelationName(relation)
    ensures IsEntryId(relation)
  {
    forall c | c in relation
      ensures LowerChar(c) == c && FoldChar(c) == [c] && !IsSpace(c) && c != '*' && c != '"'
    {
      assert IsAlnum(c) || c == '_' || c == '-';
    }
  }

  lemma JoinedEntryId(a: string, b: string)
    requires IsEntryId(a) && IsEntryId(b)
    ensures IsEntryId(a + "#" + b)
  {
    var id := a + "#" + b;
    forall c | c in id ensures c in a || c in b || c == '#' {
    }
  }

  /** Catalogs of valid ids are told apart that way. */
  lemma ValidIdsFolded(groups: seq<Entry>)
    requires forall g :: g in groups ==> ValidGroupId(g.id) && forall r :: r in g.relations ==> ValidRelationName(r)
    ensures IdsFolded(groups)
    ensures forall g, r :: g in groups && r in g.relations ==> IsEntryId(r)
  {
    forall g, r | g in groups && r in g.relations ensures IsEntryId(r) {
      RelationIsEntryId(r);
    }
    forall o | o in Offers(groups) ensures IsEntryId(o.entry.id) {
      var g := OfferOrigin(groups, o);
      GroupIdIsEntryId(g.id);
      if o != Offer(g, BaseFields(g)) {
        var i :| 0 <= i < |g.relations| && o == RelationOffers(g, g.relations)[i];
        assert g.relations[i] in g.relations;
        JoinedEntryId(g.id, g.relations[i]);
      }
    }
  }

  lemma {:induction false} OfferOrigin(groups: seq<Entry>, o: Offer) returns (g: Entry)
    requires o in Offers(groups)
    ensures g in groups && o in OffersOf(g)
  {
    var init, last := groups[..|groups| - 1], groups[|groups| - 1];
    if o in OffersOf(last) {
      g := last;
    } else {
      g := OfferOrigin(init, o);
    }
  }

  // ── Two words, one of which matches ─────────────────────────────────────────

  /** A group of that id and name, and nothing else to be found by. */
  function PlainGroup(id: string): Entry {
    Entry(id, id, "", "", [])
  }

  lemma PlainGroupFields(a: string, b: string)
    requires IsSearchWord(a) && IsSearchWord(b) && !Text.Contains(a, b)
    ensures HoldsOnlyFirst(BaseFields(PlainGroup(a)), a, b)
  {
    var fields := BaseFields(PlainGroup(a));
    FoldKeeps(a);
    ContainsItself(a);
    assert Fold("") == "";
    LongerIsNoPart("", b);
    assert fields[0] == a && fields == [a, a, "", ""];
  }

  lemma OneOffer(clauses: seq<Clause>, g: Entry)
    requires g.relations == [] && !Satisfies(clauses, BaseFields(g))
    ensures HitsAmong(clauses, Offers([g])) == []
  {
    var o := Offer(g, BaseFields(g));
    assert [g][..0] == [] && OffersOf(g) == [o];
    assert Offers([g]) == [] + [o];
    HitsOneMore(clauses, [], o);
  }

  /** A search for two words does not find a group that only one of them names. */
  lemma NotFoundByBoth(a: string, b: string)
    requires IsSearchWord(a) && IsSearchWord(b) && !Text.Contains(a, b)
    ensures var words, g := Words(a + " " + b), PlainGroup(a);
            AllTerms(words) && SomeMatches(Terms(words), BaseFields(g))
            && HitsAmong(ParseWords(NOTHING, words).clauses, Offers([g])) == []
  {
    PlainGroupFields(a, b);
    OneWordIsNotEnough(a, b, BaseFields(PlainGroup(a)));
    OneOffer(ParseWords(NOTHING, Words(a + " " + b)).clauses, PlainGroup(a));
  }

  /** The documentation's own example: "mannheim karlsruhe" does not find the group mannheim. */
  lemma WordsAreNoAlternatives(a: string, b: string)
    requires a == "mannheim" && b == "karlsruhe"
    ensures var words, g := Words(a + " " + b), PlainGroup(a);
            AllTerms(words) && SomeMatches(Terms(words), BaseFields(g))
            && HitsAmong(ParseWords(NOTHING, words).clauses, Offers([g])) == []
  {
    LettersAreEntryId(a);
    LettersAreEntryId(b);
    LongerIsNoPart(a, b);
    assert a[0] == 'm' && b[0] == 'k';
    NotFoundByBoth(a, b);
  }
}
