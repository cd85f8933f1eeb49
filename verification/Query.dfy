// What a group search box understands (internal/catalog/query.go).
module Query {
  import opened Wrappers
  import opened Sequences
  import opened Text
  import opened Tokens
  import opened Patterns

  // ── Words ───────────────────────────────────────────────────────────────────

  /** A word of the query, or a quoted phrase. */
  datatype Word = Word(text: string, phrase: bool)

  /** How many characters until the first separator. */
  function RunLength(s: string, sep: char -> bool): (n: nat)
    ensures n <= |s|
    ensures forall i :: 0 <= i < n ==> !sep(s[i])
    ensures n < |s| ==> sep(s[n])
  {
    if s == "" || sep(s[0]) then 0
    else
      var n := RunLength(s[1..], sep);
      assert forall i :: 0 < i < n + 1 ==> s[i] == s[1..][i - 1];
      n + 1
  }

  /** The runs between separators, as strings.FieldsFunc cuts them. */
  function FieldsBy(s: string, sep: char -> bool): seq<string>
    decreases |s|
  {
    if s == "" then []
    else if sep(s[0]) then FieldsBy(s[1..], sep)
    else [s[..RunLength(s, sep)]] + FieldsBy(s[RunLength(s, sep)..], sep)
  }

  function Plain(fields: seq<string>): seq<Word> {
    seq(|fields|, i requires 0 <= i < |fields| => Word(fields[i], false))
  }

  /** Words outside quotes, and each "..." as one phrase; an unclosed quote quotes the rest. */
  function Words(raw: string): seq<Word>
    decreases |raw|
  {
    var open := Find(raw, '"');
    var before := Plain(FieldsBy(raw[..open], IsSpace));
    if open == |raw| then before
    else
      var after := raw[open + 1..];
      var close := Find(after, '"');
      var phrase := TrimSpace(after[..close]);
      before + (if phrase != "" then [Word(phrase, true)] else [])
      + Words(if close == |after| then "" else after[close + 1..])
  }

  // ── Terms ───────────────────────────────────────────────────────────────────

  function FoldChar(c: char): string {
    if c == '\U{E4}' then "ae"
    else if c == '\U{F6}' then "oe"
    else if c == '\U{FC}' then "ue"
    else if c == '\U{DF}' then "ss"
    else [c]
  }

  function Spelled(s: string): string {
    if s == "" then "" else FoldChar(s[0]) + Spelled(s[1..])
  }

  /** The spelling terms and fields are compared in: lowercase, umlauts spelled out. */
  function Fold(s: string): string {
    Spelled(Lower(s))
  }

  /** A folded text; with a wildcard it matches a whole field or word, without one any part of a field. */
  datatype Term = Term(text: string, wild: bool)

  function NewTerm(raw: string): Option<Term> {
    var text := Fold(TrimPrefix(TrimSpace(raw), GROUP_PREFIX));
    if forall c :: c in text ==> c == '*' then None else Some(Term(text, '*' in text))
  }

  predicate IsWordSeparator(c: char) {
    c == ' ' || c == '(' || c == ')' || c == ','
  }

  predicate MatchesField(t: Term, field: string) {
    if !t.wild then Text.Contains(field, t.text)
    else
      Accepts(Compiled(t.text), field)
      || exists w :: w in FieldsBy(field, IsWordSeparator) && Accepts(Compiled(t.text), w)
  }

  predicate Matches(t: Term, fields: seq<string>) {
    exists f :: f in fields && MatchesField(t, f)
  }

  // ── Parsing ─────────────────────────────────────────────────────────────────

  predicate IsAndWord(w: Word) {
    !w.phrase && Lower(w.text) in ["und", "and", "&"]
  }

  predicate IsOrWord(w: Word) {
    !w.phrase && Lower(w.text) in ["oder", "or", "|"]
  }

  type Clause = seq<Term>

  /** The clauses read so far, and whether the next term is an alternative in the last one. */
  datatype Parse = Parse(clauses: seq<Clause>, pending: bool)

  function TermOf(w: Word): Option<Term> {
    NewTerm(if w.phrase then w.text else TrimPrefix(w.text, "+"))
  }

  /** An alternative in the last clause, or a clause of its own. */
  function ParseTerm(p: Parse, t: Term): Parse {
    if p.pending && p.clauses != [] then
      var last := |p.clauses| - 1;
      Parse(p.clauses[last := p.clauses[last] + [t]], false)
    else Parse(p.clauses + [[t]], false)
  }

  function ParseWord(p: Parse, w: Word): Parse {
    if IsAndWord(w) then p
    else if IsOrWord(w) then p.(pending := p.clauses != [])
    else
      match TermOf(w)
      case None => p
      case Some(t) => ParseTerm(p, t)
  }

  function ParseWords(p: Parse, words: seq<Word>): Parse {
    if words == [] then p else ParseWord(ParseWords(p, words[..|words| - 1]), words[|words| - 1])
  }

  const NOTHING := Parse([], false)

  method ParseQuery(raw: string) returns (clauses: seq<Clause>)
    ensures clauses == ParseWords(NOTHING, Words(raw)).clauses
  {
    var words := Words(raw);
    clauses := [];
    var or := false;
    for i := 0 to |words|
      invariant Parse(clauses, or) == ParseWords(NOTHING, words[..i])
    {
      assert words[..i + 1][..i] == words[..i];
      PendingNeedsClause(words[..i]);
      clauses, or := TakeWord(clauses, or, words[i]);
    }
    assert words[..|words|] == words;
  }

  /** One turn of the loop over the words. */
  method TakeWord(clauses: seq<Clause>, or: bool, w: Word) returns (clauses': seq<Clause>, or': bool)
    requires or ==> clauses != []
    ensures Parse(clauses', or') == ParseWord(Parse(clauses, or), w)
  {
    if IsAndWord(w) {
      return clauses, or;
    }
    if IsOrWord(w) {
      return clauses, |clauses| > 0;
    }
    var text := if w.phrase then w.text else TrimPrefix(w.text, "+");
    var term := NewTerm(text);
    if term == None {
      return clauses, or;
    }
    if or {
      var last := |clauses| - 1;
      return clauses[last := clauses[last] + [term.value]], false;
    }
    return clauses + [[term.value]], false;
  }

  lemma {:induction false} PendingNeedsClause(words: seq<Word>)
    ensures var p := ParseWords(NOTHING, words); p.pending ==> p.clauses != []
  {
    if words != [] {
      PendingNeedsClause(words[..|words| - 1]);
    }
  }

  lemma ParseLast(p: Parse, words: seq<Word>, w: Word)
    ensures ParseWords(p, words + [w]) == ParseWord(ParseWords(p, words), w)
  {
    assert (words + [w])[..|words|] == words;
  }

  lemma {:induction false} ParseConcat(p: Parse, a: seq<Word>, b: seq<Word>)
    ensures ParseWords(p, a + b) == ParseWords(ParseWords(p, a), b)
  {
    if b == [] {
      assert a + b == a;
    } else {
      var init, last := b[..|b| - 1], b[|b| - 1];
      assert b == init + [last] && a + b == (a + init) + [last];
      ParseConcat(p, a, init);
      ParseLast(p, a + init, last);
      ParseLast(ParseWords(p, a), init, last);
    }
  }

  lemma ParseOne(p: Parse, w: Word)
    ensures ParseWords(p, [w]) == ParseWord(p, w)
  {
    assert [w][..0] == [];
  }

  /** UND, AND and & change nothing, wherever they stand. */
  lemma AndWordsChangeNothing(a: seq<Word>, w: Word, b: seq<Word>)
    requires IsAndWord(w)
    ensures ParseWords(NOTHING, a + [w] + b) == ParseWords(NOTHING, a + b)
  {
    ParseConcat(NOTHING, a + [w], b);
    ParseConcat(NOTHING, a, [w]);
    ParseConcat(NOTHING, a, b);
    ParseOne(ParseWords(NOTHING, a), w);
  }

  // ── Scoring ─────────────────────────────────────────────────────────────────

  /** How many of a clause's terms match. */
  function MatchCount(clause: Clause, fields: seq<string>): nat {
    if clause == [] then 0
    else MatchCount(clause[..|clause| - 1], fields) + if Matches(clause[|clause| - 1], fields) then 1 else 0
  }

  function TotalCount(clauses: seq<Clause>, fields: seq<string>): nat {
    if clauses == [] then 0
    else TotalCount(clauses[..|clauses| - 1], fields) + MatchCount(clauses[|clauses| - 1], fields)
  }

  /** Every clause is met by one of its alternatives. */
  ghost predicate Satisfies(clauses: seq<Clause>, fields: seq<string>) {
    forall clause :: clause in clauses ==> exists t :: t in clause && Matches(t, fields)
  }

  lemma {:induction false} MatchCountPositive(clause: Clause, fields: seq<string>)
    ensures MatchCount(clause, fields) > 0 <==> exists t :: t in clause && Matches(t, fields)
  {
    if clause != [] {
      var init, last := clause[..|clause| - 1], clause[|clause| - 1];
      MatchCountPositive(init, fields);
      assert clause == init + [last];
    }
  }

  /** -1 where some clause is not met, else how many terms match in all. */
  method Score(clauses: seq<Clause>, fields: seq<string>) returns (n: int)
    ensures n == if Satisfies(clauses, fields) then TotalCount(clauses, fields) else -1
  {
    n := 0;
    for i := 0 to |clauses|
      invariant Satisfies(clauses[..i], fields) && n == TotalCount(clauses[..i], fields)
    {
      var matched := 0;
      var clause := clauses[i];
      for j := 0 to |clause|
        invariant matched == MatchCount(clause[..j], fields)
      {
        assert clause[..j + 1][..j] == clause[..j];
        if Matches(clause[j], fields) {
          matched := matched + 1;
        }
      }
      assert clause[..|clause|] == clause;
      MatchCountPositive(clause, fields);
      if matched == 0 {
        assert clause in clauses;
        return -1;
      }
      TakeMore(clauses, i);
      assert clauses[..i + 1][..i] == clauses[..i];
      n := n + matched;
    }
    assert clauses[..|clauses|] == clauses;
  }

  /** A word that stands for a term. */
  predicate IsTermWord(w: Word) {
    !IsAndWord(w) && !IsOrWord(w) && TermOf(w).Some?
  }

  function TermFor(w: Word): Term
    requires IsTermWord(w)
  {
    TermOf(w).value
  }

  lemma TermWordParsed(p: Parse, w: Word)
    requires !p.pending && IsTermWord(w)
    ensures ParseWord(p, w) == Parse(p.clauses + [[TermFor(w)]], false)
  {
  }

  predicate AllTerms(words: seq<Word>) {
    words == [] || (AllTerms(words[..|words| - 1]) && IsTermWord(words[|words| - 1]))
  }

  function Terms(words: seq<Word>): (ts: seq<Term>)
    requires AllTerms(words)
    ensures |ts| == |words|
  {
    if words == [] then [] else Terms(words[..|words| - 1]) + [TermFor(words[|words| - 1])]
  }

  /** One clause per term. */
  function Required(ts: seq<Term>): seq<Clause> {
    if ts == [] then [] else Required(ts[..|ts| - 1]) + [[ts[|ts| - 1]]]
  }

  lemma RequiredMore(ts: seq<Term>, t: Term)
    ensures Required(ts + [t]) == Required(ts) + [[t]]
  {
    assert (ts + [t])[..|ts|] == ts;
  }

  lemma {:induction false} TermWordsParse(words: seq<Word>)
    requires AllTerms(words)
    ensures ParseWords(NOTHING, words) == Parse(Required(Terms(words)), false)
  {
    if words != [] {
      var init, last := words[..|words| - 1], words[|words| - 1];
      TermWordsParse(init);
      TermWordParsed(ParseWords(NOTHING, init), last);
      RequiredMore(Terms(init), TermFor(last));
    }
  }

  ghost predicate EachMatches(ts: seq<Term>, fields: seq<string>) {
    forall t :: t in ts ==> Matches(t, fields)
  }

  ghost predicate SomeMatches(ts: seq<Term>, fields: seq<string>) {
    exists t :: t in ts && Matches(t, fields)
  }

  lemma SatisfiesMore(clauses: seq<Clause>, t: Term, fields: seq<string>)
    ensures Satisfies(clauses + [[t]], fields) <==> Satisfies(clauses, fields) && Matches(t, fields)
  {
    assert [t] in clauses + [[t]];
    assert forall clause :: clause in clauses ==> clause in clauses + [[t]];
    if Matches(t, fields) {
      assert t in [t];
    }
  }

  lemma {:induction false} RequiredSatisfied(ts: seq<Term>, fields: seq<string>)
    ensures Satisfies(Required(ts), fields) <==> EachMatches(ts, fields)
  {
    if ts != [] {
      var init, last := ts[..|ts| - 1], ts[|ts| - 1];
      assert ts == init + [last];
      RequiredSatisfied(init, fields);
      SatisfiesMore(Required(init), last, fields);
    }
  }

  /** Words side by side are all required: an entry is found exactly when each of them matches. */
  lemma WordsAreRequired(words: seq<Word>, fields: seq<string>)
    requires AllTerms(words)
    ensures Satisfies(ParseWords(NOTHING, words).clauses, fields) <==> EachMatches(Terms(words), fields)
  {
    TermWordsParse(words);
    RequiredSatisfied(Terms(words), fields);
  }

  // ── Required and alternative words ──────────────────────────────────────────

  predicate SameTerms(ts: seq<Term>) {
    forall t, u :: t in ts && u in ts ==> t == u
  }

  /** Reading the terms as required or as alternatives finds the same, whatever the fields. */
  ghost predicate ReadingsAgree(ts: seq<Term>) {
    forall fields :: EachMatches(ts, fields) <==> SomeMatches(ts, fields)
  }

  lemma SameTermsAgree(ts: seq<Term>)
    requires ts != [] && SameTerms(ts)
    ensures ReadingsAgree(ts)
  {
    forall fields ensures EachMatches(ts, fields) <==> SomeMatches(ts, fields) {
      assert ts[0] in ts;
    }
  }

  lemma ContainsItself(s: string)
    ensures Text.Contains(s, s)
  {
    assert s <= s[0..];
  }

  lemma ContainsEachOther(a: string, b: string)
    requires Text.Contains(a, b) && Text.Contains(b, a)
    ensures a == b
  {
    var i :| 0 <= i <= |a| && b <= a[i..];
    var j :| 0 <= j <= |b| && a <= b[j..];
    assert i == 0 && a[0..] == a;
  }

  /** A text holding one plain term and not the other tells the readings apart. */
  lemma AgreeingTermsContained(ts: seq<Term>, t: Term, u: Term)
    requires ReadingsAgree(ts) && t in ts && u in ts && !t.wild && !u.wild
    ensures Text.Contains(t.text, u.text)
  {
    var fields := [t.text];
    ContainsItself(t.text);
    assert fields[0] in fields && Matches(t, fields);
    assert SomeMatches(ts, fields);
    assert EachMatches(ts, fields);
    assert Matches(u, fields);
  }

  /**
   * Words without a wildcard are alternatives, as the documentation has it, exactly when they are the same term
   * throughout.
   */
  lemma ReadingsAgreeIff(words: seq<Word>)
    requires AllTerms(words) && words != []
    requires forall t :: t in Terms(words) ==> !t.wild
    ensures (forall fields ::
               Satisfies(ParseWords(NOTHING, words).clauses, fields) <==> SomeMatches(Terms(words), fields))
            <==> SameTerms(Terms(words))
  {
    var ts := Terms(words);
    forall fields ensures Satisfies(ParseWords(NOTHING, words).clauses, fields) <==> EachMatches(ts, fields) {
      WordsAreRequired(words, fields);
    }
    if SameTerms(ts) {
      SameTermsAgree(ts);
    } else {
      var t, u :| t in ts && u in ts && t != u;
      if ReadingsAgree(ts) {
        AgreeingTermsContained(ts, t, u);
        AgreeingTermsContained(ts, u, t);
        ContainsEachOther(t.text, u.text);
        assert false;
      }
    }
  }

  /** Wildcards or not, the same word again changes nothing, and there both readings agree. */
  lemma RepeatedWordAgrees(words: seq<Word>, fields: seq<string>)
    requires AllTerms(words) && words != [] && SameTerms(Terms(words))
    ensures Satisfies(ParseWords(NOTHING, words).clauses, fields) <==> SomeMatches(Terms(words), fields)
  {
    WordsAreRequired(words, fields);
    SameTermsAgree(Terms(words));
  }

  /** A word more, unless it follows an ODER, never adds a match. */
  lemma WordNarrows(words: seq<Word>, w: Word, fields: seq<string>)
    requires !ParseWords(NOTHING, words).pending
    requires Satisfies(ParseWords(NOTHING, words + [w]).clauses, fields)
    ensures Satisfies(ParseWords(NOTHING, words).clauses, fields)
  {
    assert (words + [w])[..|words|] == words;
    var p, q := ParseWords(NOTHING, words), ParseWords(NOTHING, words + [w]);
    assert q == ParseWord(p, w);
    assert forall clause :: clause in p.clauses ==> clause in q.clauses;
  }

  lemma TermGrows(p: Parse, t: Term)
    requires p.pending && p.clauses != []
    ensures |ParseTerm(p, t).clauses| == |p.clauses|
    ensures forall i :: 0 <= i < |p.clauses| ==> p.clauses[i] <= ParseTerm(p, t).clauses[i]
  {
  }

  /** A word behind an ODER makes clauses longer, and none of them new. */
  lemma ClausesGrow(p: Parse, w: Word)
    requires p.pending && p.clauses != []
    ensures |ParseWord(p, w).clauses| == |p.clauses|
    ensures forall i :: 0 <= i < |p.clauses| ==> p.clauses[i] <= ParseWord(p, w).clauses[i]
  {
    if !IsAndWord(w) && !IsOrWord(w) {
      if TermOf(w).Some? {
        TermGrows(p, TermOf(w).value);
      }
    }
  }

  /** A word behind an ODER never takes a match away. */
  lemma AlternativeWidens(words: seq<Word>, w: Word, fields: seq<string>)
    requires ParseWords(NOTHING, words).pending
    requires Satisfies(ParseWords(NOTHING, words).clauses, fields)
    ensures Satisfies(ParseWords(NOTHING, words + [w]).clauses, fields)
  {
    assert (words + [w])[..|words|] == words;
    var p := ParseWords(NOTHING, words);
    PendingNeedsClause(words);
    ClausesGrow(p, w);
    var after := ParseWord(p, w).clauses;
    forall clause | clause in after
      ensures exists t :: t in clause && Matches(t, fields)
    {
      var i :| 0 <= i < |after| && after[i] == clause;
      assert p.clauses[i] in p.clauses && p.clauses[i] <= clause;
      var t :| t in p.clauses[i] && Matches(t, fields);
    }
  }

  // ── A pasted token ──────────────────────────────────────────────────────────

  /** The query is exactly this id. */
  predicate IsExact(clauses: seq<Clause>, id: string) {
    |clauses| == 1 && |clauses[0]| == 1 && !clauses[0][0].wild && clauses[0][0].text == id
  }

  /** What the ids of entries are made of: nothing folding, quoting, splitting or matching treats specially. */
  predicate IsEntryId(id: string) {
    id != "" && forall c :: c in id ==> LowerChar(c) == c && FoldChar(c) == [c] && !IsSpace(c) && c != '*' && c != '"'
  }

  lemma {:induction false} SpelledKeeps(s: string)
    requires forall c :: c in s ==> FoldChar(c) == [c]
    ensures Spelled(s) == s
  {
    if s != "" {
      SpelledKeeps(s[1..]);
      assert s == [s[0]] + s[1..];
    }
  }

  lemma FoldKeeps(id: string)
    requires IsEntryId(id)
    ensures Fold(id) == id
  {
    LowerKeeps(id);
    SpelledKeeps(id);
  }

  /** A text without separators is one field. */
  lemma OneField(s: string)
    requires s != "" && forall c :: c in s ==> !IsSpace(c)
    ensures FieldsBy(s, IsSpace) == [s]
  {
    assert s[0] in s;
    var n := RunLength(s, IsSpace);
    forall i | 0 <= i < |s| ensures !IsSpace(s[i]) {
      assert s[i] in s;
    }
    assert n == |s|;
    assert s[..n] == s && s[n..] == "";
  }

  lemma TokenWords(id: string)
    requires IsEntryId(id)
    ensures Words(GROUP_PREFIX + id) == [Word(GROUP_PREFIX + id, false)]
  {
    var raw := GROUP_PREFIX + id;
    OneField(raw);
    assert Find(raw, '"') == |raw|;
    assert raw[..|raw|] == raw;
  }

  lemma PlainTerm(raw: string, text: string)
    requires TrimPrefix(TrimSpace(raw), GROUP_PREFIX) == text && Fold(text) == text
    requires '*' !in text && text != ""
    ensures NewTerm(raw) == Some(Term(text, false))
  {
    assert text[0] in text;
  }

  lemma TokenTrimmed(id: string)
    requires IsEntryId(id)
    ensures TrimSpace(GROUP_PREFIX + id) == GROUP_PREFIX + id
  {
    var raw := GROUP_PREFIX + id;
    assert id[|id| - 1] in id && raw[|raw| - 1] == id[|id| - 1];
    TrimKeeps(raw);
  }

  lemma TokenTerm(id: string)
    requires IsEntryId(id)
    ensures NewTerm(GROUP_PREFIX + id) == Some(Term(id, false))
  {
    var raw := GROUP_PREFIX + id;
    TokenTrimmed(id);
    assert raw[|GROUP_PREFIX|..] == id;
    FoldKeeps(id);
    assert id[0] in id;
    PlainTerm(raw, id);
  }

  lemma TokenIsNoOperator(id: string)
    ensures var w := Word(GROUP_PREFIX + id, false);
            !IsAndWord(w) && !IsOrWord(w) && TrimPrefix(w.text, "+") == w.text
  {
    var raw := GROUP_PREFIX + id;
    assert Lower(raw)[0] == 'g';
  }

  /** A pasted token asks for exactly its id. */
  lemma TokenIsExact(id: string)
    requires IsEntryId(id)
    ensures IsExact(ParseWords(NOTHING, Words(GROUP_PREFIX + id)).clauses, id)
  {
    var w := Word(GROUP_PREFIX + id, false);
    TokenWords(id);
    ParseOne(NOTHING, w);
    TokenTerm(id);
    TokenIsNoOperator(id);
  }

  // ── Two words, one of which matches ─────────────────────────────────────────

  /** The run in front of the first separator. */
  lemma RunBefore(a: string, rest: string)
    requires forall c :: c in a ==> !IsSpace(c)
    requires rest != "" && IsSpace(rest[0])
    ensures RunLength(a + rest, IsSpace) == |a|
  {
    var s := a + rest;
    assert s[|a|] == rest[0];
    forall i | 0 <= i < |a| ensures !IsSpace(s[i]) {
      assert a[i] in a;
    }
  }

  lemma TwoFields(a: string, b: string)
    requires a != "" && b != "" && forall c :: c in a + b ==> !IsSpace(c)
    ensures FieldsBy(a + " " + b, IsSpace) == [a, b]
  {
    var rest := " " + b;
    var s := a + rest;
    assert a + " " + b == s;
    forall c | c in a || c in b ensures !IsSpace(c) {
      assert c in a + b;
    }
    RunBefore(a, rest);
    assert s[0] == a[0] && a[0] in a;
    assert s[..|a|] == a && s[|a|..] == rest && rest[1..] == b;
    OneField(b);
    assert FieldsBy(rest, IsSpace) == FieldsBy(b, IsSpace);
  }

  lemma TwoWords(a: string, b: string)
    requires IsEntryId(a) && IsEntryId(b)
    ensures Words(a + " " + b) == [Word(a, false), Word(b, false)]
  {
    var raw := a + " " + b;
    TwoFields(a, b);
    assert Find(raw, '"') == |raw|;
    assert raw[..|raw|] == raw;
  }

  /** A word that stands for itself as a term. */
  predicate IsSearchWord(a: string) {
    IsEntryId(a) && !(GROUP_PREFIX <= a) && a[0] != '+' && |a| > 4
  }

  lemma EntryIdTerm(id: string)
    requires IsSearchWord(id)
    ensures IsTermWord(Word(id, false)) && TermFor(Word(id, false)) == Term(id, false)
  {
    assert id[0] in id && id[|id| - 1] in id;
    TrimKeeps(id);
    FoldKeeps(id);
    LowerKeeps(id);
    PlainTerm(id, id);
  }

  lemma TermsMore(words: seq<Word>, w: Word)
    requires AllTerms(words) && IsTermWord(w)
    ensures AllTerms(words + [w]) && Terms(words + [w]) == Terms(words) + [TermFor(w)]
  {
    assert (words + [w])[..|words|] == words;
  }

  lemma TwoTerms(v: Word, w: Word)
    requires IsTermWord(v) && IsTermWord(w)
    ensures AllTerms([v, w]) && Terms([v, w]) == [TermFor(v), TermFor(w)]
  {
    TermsMore([], v);
    TermsMore([] + [v], w);
    assert [v, w] == ([] + [v]) + [w];
  }

  /** The two words as the query reads them. */
  lemma TwoSearchWords(a: string, b: string)
    requires IsSearchWord(a) && IsSearchWord(b)
    ensures var words := Words(a + " " + b);
            AllTerms(words) && Terms(words) == [Term(a, false), Term(b, false)]
  {
    TwoWords(a, b);
    EntryIdTerm(a);
    EntryIdTerm(b);
    TwoTerms(Word(a, false), Word(b, false));
  }

  /** Some field holds the one word and none holds the other. */
  ghost predicate HoldsOnlyFirst(fields: seq<string>, a: string, b: string) {
    (exists f :: f in fields && Text.Contains(f, a)) && forall f :: f in fields ==> !Text.Contains(f, b)
  }

  lemma OneTermIsNotEnough(a: string, b: string, fields: seq<string>)
    requires HoldsOnlyFirst(fields, a, b)
    ensures var ts := [Term(a, false), Term(b, false)];
            SomeMatches(ts, fields) && !EachMatches(ts, fields)
  {
    var ts := [Term(a, false), Term(b, false)];
    assert Matches(ts[0], fields) && ts[0] in ts;
    assert !Matches(ts[1], fields) && ts[1] in ts;
  }

  /** Fields holding one of two words and not the other are not found by the two, though one of them matches. */
  lemma OneWordIsNotEnough(a: string, b: string, fields: seq<string>)
    requires IsSearchWord(a) && IsSearchWord(b) && HoldsOnlyFirst(fields, a, b)
    ensures var words := Words(a + " " + b);
            AllTerms(words) && SomeMatches(Terms(words), fields)
            && !Satisfies(ParseWords(NOTHING, words).clauses, fields)
  {
    TwoSearchWords(a, b);
    OneTermIsNotEnough(a, b, fields);
    WordsAreRequired(Words(a + " " + b), fields);
  }

  lemma LettersAreEntryId(id: string)
    requires id != "" && forall i :: 0 <= i < |id| ==> 'a' <= id[i] <= 'z'
    ensures IsEntryId(id)
  {
    forall c | c in id ensures 'a' <= c <= 'z' {
    }
  }

  lemma LongerIsNoPart(a: string, b: string)
    requires |b| > |a|
    ensures !Text.Contains(a, b)
  {
  }
}
