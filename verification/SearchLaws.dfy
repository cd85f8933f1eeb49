// What a query finds in the columns of a group, and which hits stand first
// (internal/catalog/query.go:35-171, internal/catalog/cache.go:89-140).
module SearchLaws {
  import opened Wrappers
  import opened Sequences
  import opened Text
  import opened Tokens
  import opened Patterns
  import opened Sort
  import opened Query
  import opened Catalog

  // ── Plain terms ─────────────────────────────────────────────────────────────

  /** The text is somewhere in the field. */
  ghost predicate IsPart(part: string, field: string) {
    exists a, b :: field == a + part + b
  }

  lemma ContainsMeans(field: string, part: string)
    ensures Text.Contains(field, part) <==> IsPart(part, field)
  {
    if i :| 0 <= i <= |field| && part <= field[i..] {
      assert field == field[..i] + part + field[i + |part|..];
    }
    if a, b :| field == a + part + b {
      assert field[|a|..] == part + b;
    }
  }

  // ── Wildcards ───────────────────────────────────────────────────────────────

  /** The characters from i up to j are between separators, as many as there are. */
  predicate RunAt(s: string, i: int, j: int, sep: char -> bool) {
    0 <= i < j <= |s| && (forall k :: i <= k < j ==> !sep(s[k]))
    && (i == 0 || sep(s[i - 1])) && (j == |s| || sep(s[j]))
  }

  /** A word of the field. */
  ghost predicate IsRun(s: string, w: string, sep: char -> bool) {
    exists i, j :: RunAt(s, i, j, sep) && s[i..j] == w
  }

  /** Words are found again behind a separator, and behind the first word. */
  lemma RunBehind(s: string, n: nat, i: int, j: int, sep: char -> bool)
    requires 0 < n <= |s| && (n < |s| ==> sep(s[n - 1]) || sep(s[n]))
    ensures RunAt(s[n..], i, j, sep) ==> RunAt(s, i + n, j + n, sep) && s[n..][i..j] == s[i + n..j + n]
    ensures i >= n && (i == n ==> sep(s[n - 1])) && RunAt(s, i, j, sep) ==>
              RunAt(s[n..], i - n, j - n, sep) && s[n..][i - n..j - n] == s[i..j]
  {
    var rest := s[n..];
    assert forall k :: 0 <= k < |rest| ==> rest[k] == s[k + n];
    if i >= n && RunAt(s, i, j, sep) {
      forall k | i - n <= k < j - n ensures !sep(rest[k]) {
        assert rest[k] == s[k + n];
      }
    }
  }

  /** The pieces between separators are the field's words. */
  lemma {:induction false} FieldsAreRuns(s: string, sep: char -> bool, w: string)
    ensures w in FieldsBy(s, sep) <==> IsRun(s, w, sep)
    decreases |s|
  {
    if s != "" {
      var n := if sep(s[0]) then 1 else RunLength(s, sep);
      FieldsAreRuns(s[n..], sep, w);
      if i, j :| RunAt(s[n..], i, j, sep) && s[n..][i..j] == w {
        RunBehind(s, n, i, j, sep);
        assert RunAt(s, i + n, j + n, sep);
      }
      if i, j :| RunAt(s, i, j, sep) && s[i..j] == w {
        FirstOrBehind(s, n, i, j, sep);
      }
      if !sep(s[0]) {
        assert RunAt(s, 0, n, sep);
      }
    }
  }

  lemma FirstOrBehind(s: string, n: nat, i: int, j: int, sep: char -> bool)
    requires s != "" && n == if sep(s[0]) then 1 else RunLength(s, sep)
    requires RunAt(s, i, j, sep)
    ensures (!sep(s[0]) && s[i..j] == s[..n]) || IsRun(s[n..], s[i..j], sep)
  {
    if !sep(s[0]) && i == 0 {
      assert j == n;
    } else {
      assert i >= n;
      RunBehind(s, n, i, j, sep);
      assert RunAt(s[n..], i - n, j - n, sep);
    }
  }

  /** A wildcard term matches a field that is its text with every star filled in on one line, or has a word that is. */
  lemma WildcardMatches(text: string, field: string)
    ensures MatchesField(Term(text, true), field)
            <==> (exists runs :: IsFilling(text, runs, field))
                 || exists w, runs :: IsRun(field, w, IsWordSeparator) && IsFilling(text, runs, w)
  {
    AcceptsMeansFilled(text, field);
    forall w ensures w in FieldsBy(field, IsWordSeparator) <==> IsRun(field, w, IsWordSeparator) {
      FieldsAreRuns(field, IsWordSeparator, w);
    }
    forall w ensures Accepts(Compiled(text), w) <==> exists runs :: IsFilling(text, runs, w) {
      AcceptsMeansFilled(text, w);
    }
  }

  /** A star alone takes a whole line. */
  lemma {:induction false} StarGlob(s: string)
    ensures Accepts(Compiled("*"), s) <==> '\n' !in s
    decreases |s|
  {
    CompiledTail("*");
    assert "*"[1..] == "";
    if s != "" {
      StarGlob(s[1..]);
      assert s == [s[0]] + s[1..];
    }
  }

  /** A literal with a star behind it matches what begins with the literal. */
  lemma {:induction false} PrefixGlob(p: string, s: string)
    requires '*' !in p
    ensures Accepts(Compiled(p + "*"), s) <==> p <= s && '\n' !in s[|p|..]
    decreases |p|
  {
    if p == "" {
      assert p + "*" == "*";
      StarGlob(s);
    } else {
      CompiledTail(p + "*");
      assert (p + "*")[1..] == p[1..] + "*";
      if s != "" {
        PrefixGlob(p[1..], s[1..]);
        assert p == [p[0]] + p[1..] && s == [s[0]] + s[1..];
        if p <= s {
          assert s[1..][|p| - 1..] == s[|p|..];
        }
      }
    }
  }

  /** The field, or a word of it, begins with the text and goes on in the same line. */
  ghost predicate BeginsWith(field: string, p: string) {
    (p <= field && '\n' !in field[|p|..])
    || exists w :: IsRun(field, w, IsWordSeparator) && p <= w && '\n' !in w[|p|..]
  }

  lemma PrefixMatches(p: string, field: string)
    requires '*' !in p
    ensures MatchesField(Term(p + "*", true), field) <==> BeginsWith(field, p)
  {
    PrefixGlob(p, field);
    forall w ensures w in FieldsBy(field, IsWordSeparator) <==> IsRun(field, w, IsWordSeparator) {
      FieldsAreRuns(field, IsWordSeparator, w);
    }
    forall w ensures Accepts(Compiled(p + "*"), w) <==> p <= w && '\n' !in w[|p|..] {
      PrefixGlob(p, w);
    }
  }

  // ── Queries as they are typed ───────────────────────────────────────────────

  /** One text without blanks and quotes is one word. */
  lemma OneWord(text: string)
    requires text != "" && forall c :: c in text ==> !IsSpace(c) && c != '"'
    ensures Words(text) == [Word(text, false)]
  {
    OneField(text);
    assert Find(text, '"') == |text|;
    assert text[..|text|] == text;
  }

  lemma StarredChars(p: string)
    requires IsEntryId(p)
    ensures var text := p + "*";
            Fold(text) == text && Lower(text) == text && TrimSpace(text) == text
            && (forall c :: c in text ==> !IsSpace(c) && c != '"') && p[0] in text
  {
    var text := p + "*";
    assert p[0] in p && text[0] == p[0] && text[|text| - 1] == '*';
    forall c | c in text ensures LowerChar(c) == c && FoldChar(c) == [c] && !IsSpace(c) && c != '"' {
      assert c in p || c == '*';
    }
    LowerKeeps(text);
    SpelledKeeps(text);
    TrimKeeps(text);
  }

  /** Something to search for: no operator sign and no token prefix in front. */
  predicate IsStem(p: string) {
    IsEntryId(p) && !(GROUP_PREFIX <= p) && p[0] != '+'
  }

  lemma NotTheToken(p: string)
    requires IsStem(p)
    ensures !(GROUP_PREFIX <= p + "*")
  {
    var n := |GROUP_PREFIX|;
    if |p| < n {
      assert GROUP_PREFIX[|p|] != '*' && (p + "*")[|p|] == '*';
    } else {
      assert (p + "*")[..n] == p[..n];
    }
  }

  lemma WildTerm(raw: string, text: string)
    requires TrimPrefix(TrimSpace(raw), GROUP_PREFIX) == text && Fold(text) == text
    requires '*' in text && exists c :: c in text && c != '*'
    ensures NewTerm(raw) == Some(Term(text, true))
  {
  }

  lemma StarredNewTerm(p: string)
    requires IsStem(p)
    ensures NewTerm(p + "*") == Some(Term(p + "*", true))
  {
    var text := p + "*";
    StarredChars(p);
    NotTheToken(p);
    assert p[0] in p && p[0] != '*';
    assert text[|p|] == '*';
    WildTerm(text, text);
  }

  /** A word with a star in it is no operator. */
  lemma StarredIsNoOperator(text: string)
    requires '*' in text && Lower(text) == text
    ensures !IsAndWord(Word(text, false)) && !IsOrWord(Word(text, false))
  {
    assert '*' in Lower(text);
  }

  lemma StarredTerm(p: string)
    requires IsStem(p)
    ensures ParseWords(NOTHING, Words(p + "*")).clauses == [[Term(p + "*", true)]]
  {
    var text := p + "*";
    StarredChars(p);
    OneWord(text);
    assert text[|p|] == '*' && text[0] == p[0];
    StarredIsNoOperator(text);
    StarredNewTerm(p);
    assert TrimPrefix(text, "+") == text;
    TermParsed(NOTHING, Word(text, false), Term(text, true));
  }

  lemma TermParsed(p: Parse, w: Word, t: Term)
    requires !p.pending && !IsAndWord(w) && !IsOrWord(w) && TermOf(w) == Some(t)
    ensures ParseWords(p, [w]) == Parse(p.clauses + [[t]], false)
  {
    ParseOne(p, w);
  }

  lemma OneTermFinds(t: Term, fields: seq<string>)
    ensures Satisfies([[t]], fields) <==> Matches(t, fields)
  {
    assert [t] in [[t]] && t in [t];
  }

  /** `mann*` finds what has a column, or a word of one, that begins with `mann`. */
  lemma StarFinds(p: string, fields: seq<string>)
    requires IsStem(p)
    ensures Satisfies(ParseWords(NOTHING, Words(p + "*")).clauses, fields)
            <==> exists field :: field in fields && BeginsWith(field, p)
  {
    StarredTerm(p);
    OneTermFinds(Term(p + "*", true), fields);
    assert '*' !in p;
    forall field ensures MatchesField(Term(p + "*", true), field) <==> BeginsWith(field, p) {
      PrefixMatches(p, field);
    }
  }

  /** The end of what is quoted. */
  lemma ClosingQuote(phrase: string)
    requires '"' !in phrase
    ensures Find(phrase + "\"", '"') == |phrase|
  {
    var after := phrase + "\"";
    assert after[|phrase|] == '"';
    forall i | 0 <= i < |phrase| ensures after[i] != '"' {
      assert after[i] == phrase[i] && phrase[i] in phrase;
    }
  }

  lemma NoWords()
    ensures Words("") == []
  {
  }

  /** Quoted, several words are one. */
  lemma QuotedPhrase(phrase: string)
    requires '"' !in phrase && TrimSpace(phrase) != ""
    ensures Words("\"" + (phrase + "\"")) == [Word(TrimSpace(phrase), true)]
  {
    var after := phrase + "\"";
    var raw := "\"" + after;
    ClosingQuote(phrase);
    NoWords();
    assert Find(raw, '"') == 0 && raw[..0] == "" && raw[1..] == after;
    assert after[..|phrase|] == phrase && after[|phrase| + 1..] == "";
    assert Plain(FieldsBy("", IsSpace)) == [];
  }

  // ── Alternatives ────────────────────────────────────────────────────────────

  lemma FieldThen(a: string, rest: string)
    requires a != "" && forall c :: c in a ==> !IsSpace(c)
    ensures FieldsBy(a + (" " + rest), IsSpace) == [a] + FieldsBy(rest, IsSpace)
  {
    var tail := " " + rest;
    var s := a + tail;
    RunBefore(a, tail);
    assert s[0] == a[0] && a[0] in a;
    assert s[..|a|] == a && s[|a|..] == tail && tail[1..] == rest;
    assert FieldsBy(tail, IsSpace) == FieldsBy(rest, IsSpace);
  }

  /** Without quotes the words are the pieces between blanks. */
  lemma WordsOutsideQuotes(raw: string)
    requires '"' !in raw
    ensures Words(raw) == Plain(FieldsBy(raw, IsSpace))
  {
    assert raw[..|raw|] == raw;
  }

  /** Nothing in it splits or quotes. */
  predicate IsOneWord(w: string) {
    w != "" && forall c :: c in w ==> !IsSpace(c) && c != '"'
  }

  /** Three words with blanks between them. */
  function Spaced(a: string, b: string, c: string): string {
    a + (" " + (b + (" " + c)))
  }

  lemma SpacedFields(a: string, b: string, c: string)
    requires IsOneWord(a) && IsOneWord(b) && IsOneWord(c)
    ensures FieldsBy(Spaced(a, b, c), IsSpace) == [a] + ([b] + [c])
  {
    FieldThen(a, b + (" " + c));
    FieldThen(b, c);
    OneField(c);
  }

  lemma SpacedUnquoted(a: string, b: string, c: string)
    requires IsOneWord(a) && IsOneWord(b) && IsOneWord(c)
    ensures '"' !in Spaced(a, b, c)
  {
    forall x | x in Spaced(a, b, c) ensures x in a || x == ' ' || x in b || x in c {
    }
  }

  lemma ThreeWords(a: string, b: string, c: string)
    requires IsOneWord(a) && IsOneWord(b) && IsOneWord(c)
    ensures Words(Spaced(a, b, c)) == Plain([a] + ([b] + [c]))
  {
    SpacedFields(a, b, c);
    SpacedUnquoted(a, b, c);
    WordsOutsideQuotes(Spaced(a, b, c));
  }

  lemma PlainThree(a: string, b: string, c: string)
    ensures Plain([a] + ([b] + [c])) == ([Word(a, false)] + [Word(b, false)]) + [Word(c, false)]
  {
  }

  lemma ParseMore(words: seq<Word>, w: Word)
    ensures ParseWords(NOTHING, words + [w]) == ParseWord(ParseWords(NOTHING, words), w)
  {
    assert (words + [w])[..|words|] == words;
  }

  /** An operator between alternatives, in capitals or not. */
  predicate IsOr(or: string) {
    SameLetters(or, "oder") || SameLetters(or, "or") || or == "|"
  }

  lemma OrRead(or: string)
    requires IsOr(or)
    ensures IsOneWord(or) && IsOrWord(Word(or, false)) && !IsAndWord(Word(or, false))
  {
    OrLowered(or);
    var op := Lower(or);
    forall c | c in or ensures !IsSpace(c) && c != '"' {
      var i :| 0 <= i < |or| && or[i] == c;
      assert op[i] == LowerChar(c) && op[i] in op;
      assert op[i] != '"' && !IsSpace(op[i]);
    }
  }

  lemma OrLowered(or: string)
    requires IsOr(or)
    ensures Lower(or) in ["oder", "or", "|"] && Lower(or) !in ["und", "and", "&"]
    ensures forall c :: c in Lower(or) ==> c != '"' && !IsSpace(c)
  {
    if SameLetters(or, "oder") {
      LowerReads(or, "oder");
    } else if SameLetters(or, "or") {
      LowerReads(or, "or");
    } else {
      assert Lower(or) == "|";
    }
  }

  lemma OrPending(p: Parse, w: Word, or: Word, u: Word)
    requires !p.pending && p.clauses == [] && IsTermWord(w) && IsTermWord(u) && IsOrWord(or) && !IsAndWord(or)
    ensures ParseWord(ParseWord(ParseWord(p, w), or), u) == Parse([[TermFor(w), TermFor(u)]], false)
  {
    var t, t' := TermFor(w), TermFor(u);
    TermWordParsed(p, w);
    assert p.clauses + [[t]] == [[t]];
    assert ParseTerm(Parse([[t]], true), t').clauses == [[t] + [t']];
    assert [t] + [t'] == [t, t'];
  }

  /** Two words with an ODER between them are two alternatives. */
  lemma AlternativesParsed(a: string, or: string, b: string)
    requires IsSearchWord(a) && IsSearchWord(b) && IsOr(or)
    ensures ParseWords(NOTHING, Words(Spaced(a, or, b))).clauses == [[Term(a, false), Term(b, false)]]
  {
    var v, o, w := Word(a, false), Word(or, false), Word(b, false);
    OrRead(or);
    ThreeWords(a, or, b);
    PlainThree(a, or, b);
    EntryIdTerm(a);
    EntryIdTerm(b);
    ParseOne(NOTHING, v);
    ParseMore([v], o);
    ParseMore([v] + [o], w);
    OrPending(NOTHING, v, o, w);
  }

  /** So one of them is enough. */
  lemma OneAlternativeIsEnough(a: string, or: string, b: string, fields: seq<string>)
    requires IsSearchWord(a) && IsSearchWord(b) && IsOr(or)
    ensures Satisfies(ParseWords(NOTHING, Words(Spaced(a, or, b))).clauses, fields)
            <==> exists field :: field in fields && (IsPart(a, field) || IsPart(b, field))
  {
    var t, u := Term(a, false), Term(b, false);
    AlternativesParsed(a, or, b);
    TwoTermsFind(t, u, fields);
    forall field { ContainsMeans(field, a); }
    forall field { ContainsMeans(field, b); }
  }

  lemma TwoTermsFind(t: Term, u: Term, fields: seq<string>)
    ensures Satisfies([[t, u]], fields) <==> Matches(t, fields) || Matches(u, fields)
  {
    assert [t, u] in [[t, u]] && t in [t, u] && u in [t, u];
  }

  // ── Columns ─────────────────────────────────────────────────────────────────

  lemma MatchesMore(t: Term, fields: seq<string>, f: string)
    ensures Matches(t, fields + [f]) <==> Matches(t, fields) || MatchesField(t, f)
  {
    assert f in fields + [f];
    assert forall g :: g in fields ==> g in fields + [f];
  }

  /** A word finds a group by its id, its name, its description or its source's name, and by nothing else. */
  lemma GroupColumns(g: Entry, a: string)
    requires IsSearchWord(a)
    ensures Satisfies(ParseWords(NOTHING, Words(a)).clauses, BaseFields(g))
            <==> IsPart(a, Fold(g.id)) || IsPart(a, Fold(g.displayName)) || IsPart(a, Fold(g.description))
                 || IsPart(a, Fold(g.sourceName))
  {
    var t := Term(a, false);
    var id, name, description, source := Fold(g.id), Fold(g.displayName), Fold(g.description), Fold(g.sourceName);
    PlainTermParsed(a);
    OneTermFinds(t, BaseFields(g));
    FourFields(t, id, name, description, source);
    ContainsMeans(id, a);
    ContainsMeans(name, a);
    ContainsMeans(description, a);
    ContainsMeans(source, a);
  }

  lemma FourFields(t: Term, w: string, x: string, y: string, z: string)
    ensures Matches(t, [w, x, y, z])
            <==> MatchesField(t, w) || MatchesField(t, x) || MatchesField(t, y) || MatchesField(t, z)
  {
    MatchesMore(t, [], w);
    MatchesMore(t, [] + [w], x);
    MatchesMore(t, [] + [w] + [x], y);
    MatchesMore(t, [] + [w] + [x] + [y], z);
    assert [] + [w] + [x] + [y] + [z] == [w, x, y, z];
  }

  /** A relation of a group is found by all that, by its own name, and by the two together. */
  lemma RelationColumns(g: Entry, relation: string, a: string)
    requires IsSearchWord(a)
    ensures var clauses := ParseWords(NOTHING, Words(a)).clauses;
            Satisfies(clauses, RelationFields(g, relation))
            <==> Satisfies(clauses, BaseFields(g)) || IsPart(a, Fold(relation))
                 || IsPart(a, Fold(g.id) + "#" + Fold(relation))
  {
    var t, base := Term(a, false), BaseFields(g);
    var name, both := Fold(relation), Fold(g.id) + "#" + Fold(relation);
    PlainTermParsed(a);
    OneTermFinds(t, RelationFields(g, relation));
    OneTermFinds(t, base);
    MatchesMore(t, base, name);
    MatchesMore(t, base + [name], both);
    assert base + [name] + [both] == base + [name, both];
    ContainsMeans(name, a);
    ContainsMeans(both, a);
  }

  lemma PlainTermParsed(a: string)
    requires IsSearchWord(a)
    ensures ParseWords(NOTHING, Words(a)).clauses == [[Term(a, false)]]
  {
    forall c | c in a ensures !IsSpace(c) && c != '"' {
    }
    OneWord(a);
    EntryIdTerm(a);
    TermParsed(NOTHING, Word(a, false), Term(a, false));
  }

  // ── The order of hits ───────────────────────────────────────────────────────

  /** The terms that match, by clause and place in it. */
  ghost function Met(clauses: seq<Clause>, fields: seq<string>): set<(nat, nat)> {
    set i: nat, j: nat | i < |clauses| && j < |clauses[i]| && Matches(clauses[i][j], fields) :: (i, j)
  }

  ghost function MetIn(clause: Clause, fields: seq<string>, i: nat): set<(nat, nat)> {
    set j: nat | j < |clause| && Matches(clause[j], fields) :: (i, j)
  }

  lemma MetInMore(clause: Clause, t: Term, fields: seq<string>, i: nat)
    ensures (i, |clause|) !in MetIn(clause, fields, i)
    ensures MetIn(clause + [t], fields, i)
         == MetIn(clause, fields, i) + if Matches(t, fields) then {(i, |clause|)} else {}
  {
    var more := clause + [t];
    assert more[|clause|] == t;
    assert forall j: nat :: j < |clause| ==> more[j] == clause[j];
  }

  lemma {:induction false} MatchCountIs(clause: Clause, fields: seq<string>, i: nat)
    ensures MatchCount(clause, fields) == |MetIn(clause, fields, i)|
  {
    if clause != [] {
      var n := |clause| - 1;
      InitAndLast(clause);
      MatchCountIs(clause[..n], fields, i);
      MetInMore(clause[..n], clause[n], fields, i);
    }
  }

  lemma MetMore(clauses: seq<Clause>, clause: Clause, fields: seq<string>)
    ensures Met(clauses + [clause], fields) == Met(clauses, fields) + MetIn(clause, fields, |clauses|)
    ensures Met(clauses, fields) !! MetIn(clause, fields, |clauses|)
  {
    var more := clauses + [clause];
    assert more[|clauses|] == clause;
    assert forall i: nat :: i < |clauses| ==> more[i] == clauses[i];
  }

  /** What a hit is scored by is how many terms match. */
  lemma {:induction false} TotalCountIs(clauses: seq<Clause>, fields: seq<string>)
    ensures TotalCount(clauses, fields) == |Met(clauses, fields)|
  {
    if clauses != [] {
      var n := |clauses| - 1;
      TotalCountIs(clauses[..n], fields);
      MatchCountIs(clauses[n], fields, n);
      InitAndLast(clauses);
      MetMore(clauses[..n], clauses[n], fields);
    }
  }

  /** Both are listed, and the one wherever it is stands in front of the other. */
  ghost predicate StandsBefore(hits: seq<Hit>, h: Hit, k: Hit) {
    h in hits && k in hits
    && forall i, j :: 0 <= i < |hits| && 0 <= j < |hits| && hits[i] == h && hits[j] == k ==> i < j
  }

  /** Of two hits neither of which is the exact id asked for, the one that matches more terms stands first. */
  lemma MoreTermsFirst(clauses: seq<Clause>, offers: seq<Offer>, o: Offer, p: Offer)
    requires o in offers && p in offers && Satisfies(clauses, o.fields) && Satisfies(clauses, p.fields)
    requires !IsExact(clauses, Fold(o.entry.id)) && !IsExact(clauses, Fold(p.entry.id))
    requires |Met(clauses, o.fields)| > |Met(clauses, p.fields)|
    ensures var hits := Sorted(HitsAmong(clauses, offers), HitLeq);
            StandsBefore(hits, HitFor(clauses, o), HitFor(clauses, p))
  {
    var found := HitsAmong(clauses, offers);
    var hits := Sorted(found, HitLeq);
    HitLeqTotal();
    SortedIsSorted(found, HitLeq);
    SameElements(found, hits);
    HitsAreMatches(clauses, offers, HitFor(clauses, o));
    HitsAreMatches(clauses, offers, HitFor(clauses, p));
    TotalCountIs(clauses, o.fields);
    TotalCountIs(clauses, p.fields);
    forall i, j | 0 <= i < |hits| && 0 <= j < |hits| && hits[i] == HitFor(clauses, o) && hits[j] == HitFor(clauses, p)
      ensures i < j
    {
      assert !HitLeq(hits[j], hits[i]);
    }
  }

  /** Of the hits of two alternatives one that matches both stands before one that matches one of them. */
  lemma BothBeforeOne(a: string, or: string, b: string, offers: seq<Offer>, o: Offer, p: Offer)
    requires IsSearchWord(a) && IsSearchWord(b) && IsOr(or) && o in offers && p in offers
    requires (exists f :: f in o.fields && IsPart(a, f)) && (exists f :: f in o.fields && IsPart(b, f))
    requires (exists f :: f in p.fields && IsPart(a, f)) <==> !(exists f :: f in p.fields && IsPart(b, f))
    ensures var clauses := ParseWords(NOTHING, Words(Spaced(a, or, b))).clauses;
            var hits := Sorted(HitsAmong(clauses, offers), HitLeq);
            StandsBefore(hits, HitFor(clauses, o), HitFor(clauses, p))
  {
    var t, u := Term(a, false), Term(b, false);
    AlternativesParsed(a, or, b);
    PartMatches(a, o.fields);
    PartMatches(a, p.fields);
    PartMatches(b, o.fields);
    PartMatches(b, p.fields);
    TwoTermsFind(t, u, o.fields);
    TwoTermsFind(t, u, p.fields);
    TwoTermsMet(t, u, o.fields);
    TwoTermsMet(t, u, p.fields);
    MoreTermsFirst([[t, u]], offers, o, p);
  }

  lemma PartMatches(a: string, fields: seq<string>)
    ensures Matches(Term(a, false), fields) <==> exists f :: f in fields && IsPart(a, f)
  {
    forall field { ContainsMeans(field, a); }
  }

  lemma TwoTermsMet(t: Term, u: Term, fields: seq<string>)
    ensures Met([[t, u]], fields)
         == (if Matches(t, fields) then {(0, 0)} else {}) + (if Matches(u, fields) then {(0, 1)} else {})
  {
    var clauses := [[t, u]];
    assert clauses[0] == [t, u] && clauses[0][0] == t && clauses[0][1] == u;
  }
}
