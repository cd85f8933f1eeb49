// The shapes of ids the service accepts (internal/common/validate.go, relations.go).
module Validate {
  import opened Wrappers
  import opened Text
  import opened Tokens
  import opened Patterns

  predicate IsAlnum(c: char) {
    'a' <= c <= 'z' || '0' <= c <= '9'
  }

  predicate IsGroupIdChar(c: char) {
    IsAlnum(c) || c == '.' || c == '_' || c == '-'
  }

  predicate ValidGroupId(id: string) {
    1 <= |id| <= 128 && IsAlnum(id[0]) && forall c :: c in id ==> IsGroupIdChar(c)
  }

  predicate ValidRelationName(name: string) {
    name != "" && 'a' <= name[0] <= 'z' && forall c :: c in name ==> IsAlnum(c) || c == '_' || c == '-'
  }

  predicate IsAtext(c: char) {
    IsAlnum(c) || c in "!#$%&'*+/=?^_`{|}~-"
  }

  predicate ValidAtom(atom: string) {
    atom != "" && forall c :: c in atom ==> IsAtext(c)
  }

  predicate ValidLabel(part: string) {
    1 <= |part| <= 63 && IsAlnum(part[0]) && IsAlnum(part[|part| - 1])
    && forall c :: c in part ==> IsAlnum(c) || c == '-'
  }

  predicate ValidDomain(domain: string) {
    forall part :: part in Split(domain, '.') ==> ValidLabel(part)
  }

  predicate ValidLocalPart(local: string) {
    forall atom :: atom in Split(local, '.') ==> ValidAtom(atom)
  }

  predicate ValidEmail(email: string) {
    var at := Find(email, '@');
    |email| <= 254 && at < |email| && ValidLocalPart(email[..at]) && ValidDomain(email[at + 1..])
  }

  predicate ValidPattern(pattern: string) {
    if "*@" <= pattern then ValidDomain(pattern[2..])
    else '*' !in pattern && ValidEmail(pattern)
  }

  predicate ValidMember(kind: Kind, id: string) {
    match kind
    case User => ValidEmail(id)
    case Subgroup =>
      var i := Find(id, '#');
      ValidGroupId(id[..i]) && (i < |id| ==> ValidRelationName(id[i + 1..]))
    case Pattern => ValidPattern(id)
  }

  /** A member token, split, normalized and checked; "group:x#member" is the plain "group:x". */
  function ParseMemberToken(token: string): Result<(Kind, string)> {
    match ParseToken(TrimSpace(token))
    case None => Err(InvalidToken)
    case Some((kind, raw)) =>
      var id := NormalizeId(raw);
      if !ValidMember(kind, id) then Err(InvalidId)
      else if kind == Subgroup then
        var (group, relation) := MemberGroup(id);
        Ok((kind, JoinGroupRelation(group, relation)))
      else Ok((kind, id))
  }

  /** A group token; a bare id is accepted too. */
  function ParseGroupToken(token: string): Result<string> {
    var t := TrimSpace(token);
    if GROUP_PREFIX <= t then Ok(NormalizeId(t[|GROUP_PREFIX|..]))
    else if t != "" && ':' !in t then Ok(NormalizeId(t))
    else Err(InvalidToken)
  }

  // ── Valid ids are already normalized and safe inside tokens ─────────────────

  lemma DomainChars(domain: string)
    requires ValidDomain(domain)
    ensures domain != "" && !IsSpace(domain[|domain| - 1])
    ensures IsLower(domain) && '@' !in domain && '*' !in domain && '\n' !in domain
  {
    forall c | c in domain
      ensures c == '.' || IsAlnum(c) || c == '-'
    {
      if c != '.' {
        SplitCovers(domain, '.', c);
      }
    }
    if domain == "" {
      assert "" in Split(domain, '.');
    } else {
      assert domain[|domain| - 1] in domain;
    }
  }

  lemma LocalPartChars(local: string)
    requires ValidLocalPart(local)
    ensures IsLower(local) && '@' !in local && '\n' !in local && local != ""
  {
    forall c | c in local
      ensures c == '.' || IsAtext(c)
    {
      if c != '.' {
        SplitCovers(local, '.', c);
      }
    }
    if local == "" {
      assert "" in Split(local, '.');
    }
  }

  lemma EmailChars(email: string)
    requires ValidEmail(email)
    ensures email != "" && IsLower(email) && '\n' !in email
  {
    var at := Find(email, '@');
    LocalPartChars(email[..at]);
    DomainChars(email[at + 1..]);
    assert email == email[..at] + "@" + email[at + 1..];
  }

  lemma PatternChars(pattern: string)
    requires ValidPattern(pattern)
    ensures pattern != "" && IsLower(pattern)
  {
    if "*@" <= pattern {
      DomainChars(pattern[2..]);
      assert pattern == "*@" + pattern[2..];
    } else {
      EmailChars(pattern);
    }
  }

  lemma GroupIdChars(id: string)
    requires ValidGroupId(id)
    ensures IsLower(id) && '#' !in id && ':' !in id && '*' !in id
  {
  }

  lemma GroupMemberChars(id: string)
    requires ValidMember(Subgroup, id)
    ensures id != "" && IsLower(id)
  {
    var i := Find(id, '#');
    GroupIdChars(id[..i]);
    assert id[..i] != "";
    forall c | c in id ensures LowerChar(c) == c && !IsSpace(c) {
      assert c in id[..i] || c == '#' || c in id[i + 1..];
    }
  }

  lemma MemberChars(kind: Kind, id: string)
    requires ValidMember(kind, id)
    ensures id != "" && IsLower(id)
  {
    match kind
    case User => EmailChars(id);
    case Pattern => PatternChars(id);
    case Subgroup => GroupMemberChars(id);
  }

  lemma NormalizeKeeps(id: string)
    requires id != "" && IsLower(id)
    ensures NormalizeId(id) == id
  {
    assert id[0] in id && id[|id| - 1] in id;
    TrimKeeps(id);
    LowerKeeps(id);
  }

  /** The id a member is stored under: "x#member" is "x". */
  function Canonical(kind: Kind, id: string): string {
    if kind == Subgroup then
      var (group, relation) := MemberGroup(id);
      JoinGroupRelation(group, relation)
    else id
  }

  lemma CanonicalValid(kind: Kind, id: string)
    requires ValidMember(kind, id)
    ensures ValidMember(kind, Canonical(kind, id))
    ensures Canonical(kind, Canonical(kind, id)) == Canonical(kind, id)
  {
    if kind == Subgroup {
      JoinSplit(id);
      var (group, relation) := MemberGroup(id);
      GroupIdChars(group);
      if relation == MEMBER {
        assert Find(group, '#') == |group|;
        assert group[..|group|] == group;
      }
    }
  }

  lemma TrimBuilt(kind: Kind, id: string)
    requires id != "" && !IsSpace(id[|id| - 1])
    ensures TrimSpace(BuildToken(kind, id)) == BuildToken(kind, id)
  {
    var token := BuildToken(kind, id);
    assert token[|token| - 1] == id[|id| - 1];
    assert token[0] == KindPrefix(kind)[0];
    TrimKeeps(token);
  }

  lemma ParseTokenBuilt(kind: Kind, id: string)
    ensures ParseToken(BuildToken(kind, id)) == Some((kind, id))
  {
    var token := BuildToken(kind, id);
    assert token[|KindPrefix(kind)|..] == id;
    assert token[0] == KindPrefix(kind)[0];
  }

  lemma ParseBuilt(kind: Kind, id: string)
    requires ValidMember(kind, id)
    ensures ParseMemberToken(BuildToken(kind, id)) == Ok((kind, Canonical(kind, id)))
  {
    MemberChars(kind, id);
    assert id[|id| - 1] in id;
    TrimBuilt(kind, id);
    ParseTokenBuilt(kind, id);
    NormalizeKeeps(id);
  }

  /** Storing a valid member and printing the tuple's subject gives a token that parses back to that member. */
  lemma ParsePrintedMember(kind: Kind, id: string)
    requires ValidMember(kind, id)
    ensures var (subjId, subjRel) := Subject(kind, id);
            ParseMemberToken(MemberToken(kind, subjId, subjRel)) == Ok((kind, Canonical(kind, id)))
  {
    CanonicalValid(kind, id);
    ParseBuilt(kind, Canonical(kind, id));
  }

  lemma OnlyAt(email: string, i: nat)
    requires var at := Find(email, '@'); at < |email| && '@' !in email[at + 1..]
    requires i < |email| && email[i] == '@'
    ensures i == Find(email, '@')
  {
    var at := Find(email, '@');
    forall k | at < k < |email| ensures email[k] != '@' {
      assert email[k] == email[at + 1..][k - at - 1];
    }
  }

  /** With one "@" in the address, ending in "@d" means d is everything behind it. */
  lemma EndsAfterAt(email: string, domain: string)
    requires var at := Find(email, '@'); at < |email| && '@' !in email[at + 1..]
    ensures var tail := "@" + domain;
            (|tail| <= |email| && email[|email| - |tail|..] == tail)
            <==> email[Find(email, '@') + 1..] == domain
  {
    var at := Find(email, '@');
    var tail := "@" + domain;
    if |tail| <= |email| && email[|email| - |tail|..] == tail {
      var cut := |email| - |tail|;
      assert email[cut] == tail[0];
      OnlyAt(email, cut);
      assert email[at + 1..] == tail[1..];
    }
    if email[at + 1..] == domain {
      assert email[at..] == tail;
    }
  }

  /** An accepted pattern "*@d" matches a valid address exactly when the part after its only "@" is d. */
  lemma DomainPattern(domain: string, email: string)
    requires ValidPattern("*@" + domain) && ValidEmail(email)
    ensures GlobMatches("*@" + domain, email) <==> email[Find(email, '@') + 1..] == domain
  {
    var pattern := "*@" + domain;
    var tail := "@" + domain;
    assert pattern[2..] == domain;
    DomainChars(domain);
    EmailChars(email);
    PatternChars(pattern);
    NormalizeKeeps(pattern);
    NormalizeKeeps(email);
    assert pattern == "*" + tail;
    assert '*' !in tail;
    SuffixGlob(tail, email);
    DomainChars(email[Find(email, '@') + 1..]);
    EndsAfterAt(email, domain);
  }

  /** An accepted literal pattern matches that address and no other. */
  lemma LiteralPattern(pattern: string, email: string)
    requires ValidPattern(pattern) && !("*@" <= pattern) && ValidEmail(email)
    ensures GlobMatches(pattern, email) <==> email == pattern
  {
    EmailChars(email);
    PatternChars(pattern);
    NormalizeKeeps(pattern);
    NormalizeKeeps(email);
    LiteralGlob(pattern, email);
  }
}
