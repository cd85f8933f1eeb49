// Where LIKE patterns over manager tokens decide in the Postgres store what the
// memory store decides by the group a token names (internal/storage/postgres.go:387-399, 960-965).
module Postgres {
  import opened Wrappers
  import opened Sequences
  import opened Text
  import opened Tokens
  import opened Validate
  import opened Tuples
  import opened Transitions

  // ── LIKE and the group a manager token names ────────────────────────────────

  /** SQL LIKE with its default escape character; an escape at the end, an error there, matches nothing. */
  predicate Like(s: string, pattern: string)
    decreases |pattern|, |s|
  {
    if pattern == "" then s == ""
    else if pattern[0] == '%' then Like(s, pattern[1..]) || (s != "" && Like(s[1..], pattern))
    else if pattern[0] == '_' then s != "" && Like(s[1..], pattern[1..])
    else if pattern[0] == '\\' then
      |pattern| > 1 && s != "" && s[0] == pattern[1] && Like(s[1..], pattern[2..])
    else s != "" && s[0] == pattern[0] && Like(s[1..], pattern[1..])
  }

  /** The condition DeleteGroup and the clean-up put on a manager token. */
  predicate LikeNames(id: string, token: string) {
    token == GROUP_PREFIX + id || Like(token, GROUP_PREFIX + id + "#%")
  }

  predicate IsPlain(c: char) {
    c != '%' && c != '_' && c != '\\'
  }

  lemma {:induction false} LikeAnything(s: string)
    ensures Like(s, "%")
  {
    assert "%"[1..] == "";
    if s != "" {
      LikeAnything(s[1..]);
    }
  }

  /** A plain text followed by % matches what starts with the text. */
  lemma {:induction false} LikePrefix(text: string, s: string)
    requires forall c :: c in text ==> IsPlain(c)
    ensures Like(s, text + "%") <==> text <= s
  {
    var pattern := text + "%";
    if text == "" {
      assert pattern == "%";
      LikeAnything(s);
    } else {
      assert pattern[0] == text[0] && pattern[1..] == text[1..] + "%";
      assert IsPlain(text[0]);
      if s != "" {
        LikePrefix(text[1..], s[1..]);
        assert text <= s <==> text[0] == s[0] && text[1..] <= s[1..] by {
          assert text == [text[0]] + text[1..] && s == [s[0]] + s[1..];
        }
      }
    }
  }

  /**
   * Position by position, a text matches a pattern of the same length that has "_" or the same plain character there.
   */
  lemma {:induction false} LikePointwise(text: string, pattern: string, s: string)
    requires |text| == |pattern|
    requires forall i :: 0 <= i < |text| ==> pattern[i] == '_' || (pattern[i] == text[i] && IsPlain(text[i]))
    ensures Like(text + s, pattern + "%")
  {
    if text == "" {
      assert text + s == s && pattern + "%" == "%";
      LikeAnything(s);
    } else {
      assert (text + s)[1..] == text[1..] + s && (pattern + "%")[1..] == pattern[1..] + "%";
      LikePointwise(text[1..], pattern[1..], s);
    }
  }

  /** What is in front of the first "#" of a text is id exactly when the text is id, or starts with id and "#". */
  lemma SplitPrefix(id: string, body: string)
    requires '#' !in id
    ensures SplitGroupRelation(body).0 == id <==> body == id || id + "#" <= body
  {
    var i := Find(body, '#');
    if i < |body| {
      assert body == body[..i] + "#" + body[i + 1..];
    }
    if id + "#" <= body {
      assert body[|id|] == '#' && body[..|id|] == id;
      assert i == |id|;
    }
  }

  /** The token names the group, with or without a relation. */
  lemma NamesMeansPrefix(id: string, token: string)
    requires '#' !in id
    ensures ManagedGroupName(token) == Some(id)
            <==> token == GROUP_PREFIX + id || GROUP_PREFIX + id + "#" <= token
  {
    if GROUP_PREFIX <= token {
      var body := token[|GROUP_PREFIX|..];
      assert token == GROUP_PREFIX + body;
      SplitPrefix(id, body);
      PrefixCancels(GROUP_PREFIX, id + "#", body);
      assert GROUP_PREFIX + id + "#" == GROUP_PREFIX + (id + "#");
      assert (GROUP_PREFIX + id)[|GROUP_PREFIX|..] == id;
    }
  }

  lemma PrefixCancels(a: string, b: string, c: string)
    ensures a + b <= a + c <==> b <= c
  {
    assert (a + b)[|a|..] == b && (a + c)[|a|..] == c;
    if a + b <= a + c {
      assert forall i :: 0 <= i < |b| ==> b[i] == (a + b)[|a| + i] == (a + c)[|a| + i] == c[i];
    }
  }

  /** The database finds at least the tokens that name the group. */
  lemma LikeFindsNames(id: string, token: string)
    requires ValidGroupId(id) && ManagedGroupName(token) == Some(id)
    ensures LikeNames(id, token)
  {
    GroupIdChars(id);
    NamesMeansPrefix(id, token);
    var start := GROUP_PREFIX + id + "#";
    if start <= token {
      var s := token[|start|..];
      assert token == start + s;
      forall i | 0 <= i < |start| ensures start[i] == '_' || IsPlain(start[i]) {
        if |GROUP_PREFIX| <= i < |GROUP_PREFIX| + |id| {
          assert start[i] == id[i - |GROUP_PREFIX|];
          assert IsGroupIdChar(id[i - |GROUP_PREFIX|]);
        }
      }
      LikePointwise(start, start, s);
      assert start + "%" == GROUP_PREFIX + id + "#%";
    }
  }

  /** Without an underscore it finds no others. */
  lemma LikeNamesExactly(id: string, token: string)
    requires ValidGroupId(id) && '_' !in id
    ensures LikeNames(id, token) <==> ManagedGroupName(token) == Some(id)
  {
    GroupIdChars(id);
    NamesMeansPrefix(id, token);
    var start := GROUP_PREFIX + id + "#";
    forall c | c in start ensures IsPlain(c) {
      assert c in GROUP_PREFIX || c in id || c == '#';
      if c in id { assert IsGroupIdChar(c); }
    }
    LikePrefix(start, token);
    assert start + "%" == GROUP_PREFIX + id + "#%";
  }

  /** A token of another group that the underscores of this id match. */
  function Lookalike(id: string, relation: string): string
    requires '_' in id
  {
    GroupToken(id[Find(id, '_') := 'x'], relation)
  }

  /** The group it names: as valid as this one, and a different one. */
  lemma LookalikeGroup(id: string)
    requires ValidGroupId(id) && '_' in id
    ensures var other := id[Find(id, '_') := 'x']; ValidGroupId(other) && other != id
  {
    var i := Find(id, '_');
    var other := id[i := 'x'];
    assert id[0] != '_';
    forall c | c in other ensures IsGroupIdChar(c) {
      assert c == 'x' || c in id;
    }
    assert other[i] != id[i];
  }

  /** With an underscore it also finds tokens that name a different group. */
  lemma LikeFindsLookalike(id: string, relation: string)
    requires ValidGroupId(id) && '_' in id && relation != "" && relation != MEMBER
    ensures LikeNames(id, Lookalike(id, relation)) && ManagedGroupName(Lookalike(id, relation)) != Some(id)
  {
    var i := Find(id, '_');
    var other := id[i := 'x'];
    var text, pattern := GROUP_PREFIX + other + "#", GROUP_PREFIX + id + "#";
    forall j | 0 <= j < |text| ensures pattern[j] == '_' || (pattern[j] == text[j] && IsPlain(text[j])) {
      if |GROUP_PREFIX| <= j < |GROUP_PREFIX| + |id| {
        assert IsGroupIdChar(id[j - |GROUP_PREFIX|]);
      }
    }
    LikePointwise(text, pattern, relation);
    assert pattern + "%" == GROUP_PREFIX + id + "#%";
    assert Lookalike(id, relation) == text + relation;
    LookalikeGroup(id);
    GroupIdChars(other);
    GroupTokenNames(other, relation);
  }

  // ── DeleteGroup and the clean-up on Postgres ────────────────────────────────

  function NotLike(id: string): string -> bool {
    token => !LikeNames(id, token)
  }

  /** DeleteGroup's second statement. */
  function ManagersWithoutLike(managers: map<string, seq<string>>, id: string): map<string, seq<string>> {
    map g | g in managers && g != id :: Filter(managers[g], NotLike(id))
  }

  lemma {:induction false} FilterSame(s: seq<string>, id: string)
    requires ValidGroupId(id) && '_' !in id
    ensures Filter(s, NotLike(id)) == Filter(s, NotNaming(id))
  {
    if s != [] {
      FilterSame(s[..|s| - 1], id);
      LikeNamesExactly(id, s[|s| - 1]);
    }
  }

  /**
   * A manager list the service can have stored: valid groups, and tokens of valid addresses or of configured relations.
   */
  ghost predicate StorableToken(relations: set<string>, token: string) {
    (exists email :: ValidEmail(email) && token == BuildToken(User, email))
    || exists g, r :: ValidGroupId(g) && r in relations && token == GroupToken(g, r)
  }

  ghost predicate Storable(relations: set<string>, managers: map<string, seq<string>>) {
    forall g :: g in managers ==>
      ValidGroupId(g) && forall token :: token in managers[g] ==> StorableToken(relations, token)
  }

  /** The lookalike's token in the list of some group. */
  function Maintained(g: string, token: string): map<string, seq<string>> {
    map[g := [token]]
  }

  lemma OneTokenDiffers(id: string, g: string, token: string)
    requires g != id && LikeNames(id, token) && ManagedGroupName(token) != Some(id)
    ensures ManagersWithoutLike(Maintained(g, token), id) != ManagersWithout(Maintained(g, token), id)
  {
    FilterElements([token], NotNaming(id));
    FilterElements([token], NotLike(id));
    assert token in [token];
    assert token in ManagersWithout(Maintained(g, token), id)[g];
    assert token !in ManagersWithoutLike(Maintained(g, token), id)[g];
  }

  /** There is a valid id without an underscore. */
  lemma SomeOtherId(id: string) returns (g: string)
    requires '_' in id
    ensures ValidGroupId(g) && g != id
  {
    g := "a";
    assert '_' !in g;
  }

  lemma LookalikeStorable(id: string, relations: set<string>, relation: string, g: string)
    requires ValidGroupId(id) && '_' in id && relation in relations && ValidGroupId(g)
    ensures Storable(relations, Maintained(g, Lookalike(id, relation)))
  {
    LookalikeGroup(id);
    assert StorableToken(relations, Lookalike(id, relation));
  }

  /** With an underscore in the id a lookalike's token goes in one store and stays in the other. */
  lemma DeleteGroupDiffers(id: string, relations: set<string>, relation: string)
    requires ValidGroupId(id) && '_' in id && relation in relations && relation != "" && relation != MEMBER
    ensures exists managers ::
              Storable(relations, managers) && ManagersWithoutLike(managers, id) != ManagersWithout(managers, id)
  {
    var g := SomeOtherId(id);
    LikeFindsLookalike(id, relation);
    LookalikeStorable(id, relations, relation, g);
    OneTokenDiffers(id, g, Lookalike(id, relation));
  }

  /** Without one the two stores agree on every manager list there is. */
  lemma DeleteGroupSame(id: string, managers: map<string, seq<string>>)
    requires ValidGroupId(id) && '_' !in id
    ensures ManagersWithoutLike(managers, id) == ManagersWithout(managers, id)
  {
    forall g | g in managers { FilterSame(managers[g], id); }
  }

  /** A text matching a pattern has every plain character of the pattern. */
  lemma {:induction false} LikeHas(s: string, pattern: string, c: char)
    requires Like(s, pattern) && c in pattern && IsPlain(c) && '\\' !in pattern
    ensures c in s
    decreases |pattern|, |s|
  {
    assert pattern[0] in pattern;
    if pattern[0] == '%' {
      if Like(s, pattern[1..]) {
        LikeHas(s, pattern[1..], c);
      } else {
        LikeHas(s[1..], pattern, c);
      }
    } else if pattern[0] != c {
      LikeHas(s[1..], pattern[1..], c);
    }
  }

  /** Valid ids hold no escape, so the pattern has none. */
  lemma NamePatternPlain(id: string)
    requires ValidGroupId(id)
    ensures '\\' !in GROUP_PREFIX + id + "#%"
  {
    var pattern := GROUP_PREFIX + id + "#%";
    forall c | c in pattern ensures c != '\\' {
      assert c in GROUP_PREFIX || c in id || c == '#' || c == '%';
      if c in id { assert IsGroupIdChar(c); }
    }
  }

  /** With no relation configured but member, tokens carry no relation, and LIKE has nothing to find. */
  lemma PlainTokenSame(id: string, token: string)
    requires ValidGroupId(id) && StorableToken({MEMBER}, token)
    ensures LikeNames(id, token) <==> ManagedGroupName(token) == Some(id)
  {
    GroupIdChars(id);
    var pattern := GROUP_PREFIX + id + "#%";
    NamePatternPlain(id);
    assert pattern[|GROUP_PREFIX| + |id|] == '#' && '#' in pattern;
    if email :| ValidEmail(email) && token == BuildToken(User, email) {
      assert token[0] == 'u' && pattern[0] == 'g';
    } else {
      var g, r :| ValidGroupId(g) && r in {MEMBER} && token == GroupToken(g, r);
      GroupIdChars(g);
      GroupTokenNames(g, r);
      assert token == GROUP_PREFIX + g && '#' !in token;
      if Like(token, pattern) {
        LikeHas(token, pattern, '#');
      }
      assert token[|GROUP_PREFIX|..] == g && (GROUP_PREFIX + id)[|GROUP_PREFIX|..] == id;
    }
  }

  lemma {:induction false} FilterPlainSame(s: seq<string>, id: string)
    requires ValidGroupId(id) && forall token :: token in s ==> StorableToken({MEMBER}, token)
    ensures Filter(s, NotLike(id)) == Filter(s, NotNaming(id))
  {
    if s != [] {
      FilterPlainSame(s[..|s| - 1], id);
      PlainTokenSame(id, s[|s| - 1]);
    }
  }

  /**
   * Both stores drop the same manager tokens with a group, whatever the service may have stored, exactly when its id
   * has no underscore, or no relation beyond member is configured.
   */
  lemma DeleteGroupAgrees(id: string, relations: set<string>)
    requires ValidGroupId(id) && MEMBER in relations && forall r :: r in relations ==> ValidRelationName(r)
    ensures (forall managers :: Storable(relations, managers) ==>
               ManagersWithoutLike(managers, id) == ManagersWithout(managers, id))
            <==> '_' !in id || relations == {MEMBER}
  {
    if '_' !in id {
      forall managers { DeleteGroupSame(id, managers); }
    } else if relations == {MEMBER} {
      forall managers | Storable(relations, managers)
        ensures ManagersWithoutLike(managers, id) == ManagersWithout(managers, id)
      {
        forall g | g in managers { FilterPlainSame(managers[g], id); }
      }
    } else {
      var relation :| relation in relations && relation != MEMBER;
      DeleteGroupDiffers(id, relations, relation);
    }
  }

  lemma LookalikeOfExample(id: string)
    requires id == "a_b"
    ensures ValidGroupId(id) && '_' in id && Lookalike(id, "dozent") == "group:axb#dozent"
  {
    assert id[0] == 'a' && id[1] == '_';
    assert Find(id, '_') == 1;
    assert id[1 := 'x'] == "axb";
    forall c | c in id ensures IsGroupIdChar(c) {
    }
  }

  lemma OneTokenGoes(id: string, g: string, token: string)
    requires g != id && LikeNames(id, token) && ManagedGroupName(token) != Some(id)
    ensures ManagersWithout(Maintained(g, token), id)[g] == [token]
    ensures ManagersWithoutLike(Maintained(g, token), id)[g] == []
  {
    FilterAll([token], NotNaming(id));
    FilterNone([token], NotLike(id));
  }

  /** Deleting a_b takes the right to maintain kurs away from the dozent of axb, a group nobody touched. */
  lemma UnderscoreTakesAnothersManagers(id: string, g: string, token: string)
    requires id == "a_b" && g == "kurs" && token == "group:axb#dozent"
    ensures ManagersWithout(Maintained(g, token), id)[g] == [token]
    ensures ManagersWithoutLike(Maintained(g, token), id)[g] == []
  {
    LookalikeOfExample(id);
    LikeFindsLookalike(id, "dozent");
    assert g[0] != id[0];
    OneTokenGoes(id, g, token);
  }

  /** The clean-up's condition, with LIKE in place of naming. */
  ghost predicate AbandonedLike(groups: map<string, Group>, tuples: seq<Tuple>, managers: map<string, seq<string>>,
                                sourceId: SourceId, id: string) {
    id in groups && groups[id].sourceId == Some(sourceId)
    && !(exists t :: t in tuples && Mentions(t, id))
    && ManagersOf(managers, id) == []
    && !(exists g, token :: g in managers && token in managers[g] && LikeNames(id, token))
  }

  /** The database never deletes a group the memory store keeps. */
  lemma CleanUpKeepsMore(groups: map<string, Group>, tuples: seq<Tuple>, managers: map<string, seq<string>>,
                         sourceId: SourceId, id: string)
    requires ValidGroupId(id) && AbandonedLike(groups, tuples, managers, sourceId, id)
    ensures Abandoned(groups, tuples, managers, sourceId, id)
  {
    forall g, token | g in managers && token in managers[g]
      ensures ManagedGroupName(token) != Some(id)
    {
      if ManagedGroupName(token) == Some(id) {
        LikeFindsNames(id, token);
      }
    }
  }

  /** Without an underscore the clean-ups agree whatever the managers are. */
  lemma CleanUpSame(groups: map<string, Group>, tuples: seq<Tuple>, managers: map<string, seq<string>>,
                    sourceId: SourceId, id: string)
    requires ValidGroupId(id) && '_' !in id
    ensures Abandoned(groups, tuples, managers, sourceId, id) <==> AbandonedLike(groups, tuples, managers, sourceId, id)
  {
    forall token { LikeNamesExactly(id, token); }
  }

  /** Both clean-ups keep the group, or both delete it. */
  ghost predicate SameVerdict(groups: map<string, Group>, tuples: seq<Tuple>, managers: map<string, seq<string>>,
                              sourceId: SourceId, id: string) {
    Abandoned(groups, tuples, managers, sourceId, id) <==> AbandonedLike(groups, tuples, managers, sourceId, id)
  }

  /** They do in every state with managers the service can have stored. */
  ghost predicate CleanUpAgrees(id: string, relations: set<string>, sourceId: SourceId) {
    forall groups, tuples, managers ::
      Storable(relations, managers) ==> SameVerdict(groups, tuples, managers, sourceId, id)
  }

  lemma OneTokenKeeps(id: string, g: string, token: string, sourceId: SourceId)
    requires g != id && LikeNames(id, token) && ManagedGroupName(token) != Some(id)
    ensures !SameVerdict(map[id := Group(id, "", Some(sourceId))], [], Maintained(g, token), sourceId, id)
  {
    assert token in Maintained(g, token)[g];
  }

  lemma OneStateDiffers(id: string, relations: set<string>, groups: map<string, Group>, tuples: seq<Tuple>,
                        managers: map<string, seq<string>>, sourceId: SourceId)
    requires Storable(relations, managers) && !SameVerdict(groups, tuples, managers, sourceId, id)
    ensures !CleanUpAgrees(id, relations, sourceId)
  {
  }

  /** With an underscore in the id a lookalike's token keeps the group in one store and not in the other. */
  lemma CleanUpDiffers(id: string, relations: set<string>, relation: string, sourceId: SourceId)
    requires ValidGroupId(id) && '_' in id && relation in relations && relation != "" && relation != MEMBER
    ensures !CleanUpAgrees(id, relations, sourceId)
  {
    var g := SomeOtherId(id);
    LikeFindsLookalike(id, relation);
    LookalikeStorable(id, relations, relation, g);
    var token := Lookalike(id, relation);
    OneTokenKeeps(id, g, token, sourceId);
    var groups := map[id := Group(id, "", Some(sourceId))];
    OneStateDiffers(id, relations, groups, [], Maintained(g, token), sourceId);
  }

  /** They agree in every state exactly when the id has no underscore, or no relation beyond member is configured. */
  lemma CleanUpAgreesIff(id: string, relations: set<string>, sourceId: SourceId)
    requires ValidGroupId(id) && MEMBER in relations && forall r :: r in relations ==> ValidRelationName(r)
    ensures CleanUpAgrees(id, relations, sourceId) <==> '_' !in id || relations == {MEMBER}
  {
    if '_' !in id || relations == {MEMBER} {
      forall token | '_' !in id || StorableToken(relations, token)
        ensures LikeNames(id, token) <==> ManagedGroupName(token) == Some(id)
      {
        if '_' !in id { LikeNamesExactly(id, token); } else { PlainTokenSame(id, token); }
      }
    } else {
      var relation :| relation in relations && relation != MEMBER;
      CleanUpDiffers(id, relations, relation, sourceId);
    }
  }
}
