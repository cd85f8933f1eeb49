// Tokens and the tuples they are printed from (internal/common/types.go, and
// subject/memberToken of internal/storage/memory.go).
module Tokens {
  import opened Wrappers
  import opened Text

  const GROUP_PREFIX := "group:"
  const USER_PREFIX := "user:"
  const PATTERN_PREFIX := "pattern:"
  const MEMBER := "member"

  /** The subject types a tuple may have. */
  datatype Kind = User | Subgroup | Pattern

  function KindPrefix(kind: Kind): string {
    match kind
    case User => USER_PREFIX
    case Subgroup => GROUP_PREFIX
    case Pattern => PATTERN_PREFIX
  }

  function NormalizeId(id: string): string {
    Lower(TrimSpace(id))
  }

  function NormalizeRelation(relation: string): string {
    if relation == "" then MEMBER else relation
  }

  function ParseToken(token: string): Option<(Kind, string)> {
    if GROUP_PREFIX <= token then Some((Subgroup, token[|GROUP_PREFIX|..]))
    else if USER_PREFIX <= token then Some((User, token[|USER_PREFIX|..]))
    else if PATTERN_PREFIX <= token then Some((Pattern, token[|PATTERN_PREFIX|..]))
    else None
  }

  function BuildToken(kind: Kind, id: string): string {
    KindPrefix(kind) + id
  }

  function SplitGroupRelation(id: string): (string, string) {
    var i := Find(id, '#');
    if i < |id| then (id[..i], id[i + 1..]) else (id, MEMBER)
  }

  function JoinGroupRelation(group: string, relation: string): string {
    if relation == "" || relation == MEMBER then group else group + "#" + relation
  }

  function MemberGroup(id: string): (string, string) {
    var (group, relation) := SplitGroupRelation(id);
    (group, NormalizeRelation(relation))
  }

  function GroupToken(group: string, relation: string): string {
    GROUP_PREFIX + JoinGroupRelation(group, relation)
  }

  /** What a tuple stores of a member: its subject id and subject relation. */
  function Subject(kind: Kind, memberId: string): (string, string) {
    if kind == Subgroup then MemberGroup(memberId) else (memberId, "")
  }

  /** The token of a tuple's subject. */
  function MemberToken(kind: Kind, subjId: string, subjRel: string): string {
    if kind == Subgroup then GroupToken(subjId, subjRel) else BuildToken(kind, subjId)
  }

  /** The group a manager token names, if it names one, whatever the relation. */
  function ManagedGroupName(token: string): Option<string> {
    if GROUP_PREFIX <= token then Some(SplitGroupRelation(token[|GROUP_PREFIX|..]).0) else None
  }

  // ── Printing and splitting are inverse ──────────────────────────────────────

  /** A group id without a separator and a relation other than member split back into themselves. */
  lemma SplitJoin(group: string, relation: string)
    requires '#' !in group
    ensures SplitGroupRelation(JoinGroupRelation(group, relation))
         == (group, NormalizeRelation(relation))
  {
    if relation != "" && relation != MEMBER {
      var id := group + "#" + relation;
      assert id[|group|] == '#';
      forall j | 0 <= j < |group| ensures id[j] != '#' { assert id[j] == group[j]; }
      assert Find(id, '#') == |group|;
      assert id[..|group|] == group && id[|group| + 1..] == relation;
    }
  }

  /** Joining what was split gives the id back, up to the relation member, which is never printed. */
  lemma JoinSplit(id: string)
    ensures var (group, relation) := MemberGroup(id);
            '#' !in group
            && relation != ""
            && JoinGroupRelation(group, relation) == (if relation == MEMBER then group else id)
  {
    var i := Find(id, '#');
    if i < |id| {
      assert id == id[..i] + "#" + id[i + 1..];
    }
  }

  lemma GroupTokenNames(group: string, relation: string)
    requires '#' !in group
    ensures ManagedGroupName(GroupToken(group, relation)) == Some(group)
  {
    SplitJoin(group, relation);
    var token := GroupToken(group, relation);
    assert token[|GROUP_PREFIX|..] == JoinGroupRelation(group, relation);
  }

  /** A (group, relation) pair can be read back from its token. */
  lemma GroupTokenInjective(g1: string, r1: string, g2: string, r2: string)
    requires '#' !in g1 && '#' !in g2
    requires GroupToken(g1, r1) == GroupToken(g2, r2)
    ensures g1 == g2 && NormalizeRelation(r1) == NormalizeRelation(r2)
  {
    SplitJoin(g1, r1);
    SplitJoin(g2, r2);
    assert GroupToken(g1, r1)[|GROUP_PREFIX|..] == JoinGroupRelation(g1, r1);
    assert GroupToken(g2, r2)[|GROUP_PREFIX|..] == JoinGroupRelation(g2, r2);
  }

  /** Tokens of different kinds differ in their first letter. */
  lemma KindOfToken(kind: Kind, subjId: string, subjRel: string)
    ensures var token := MemberToken(kind, subjId, subjRel);
            token != "" && token[0] == KindPrefix(kind)[0]
  {
  }

  /** Distinct subjects print distinct tokens, once group ids carry no separator. */
  lemma MemberTokenInjective(k1: Kind, id1: string, rel1: string, k2: Kind, id2: string, rel2: string)
    requires k1 == Subgroup ==> '#' !in id1 && rel1 != ""
    requires k2 == Subgroup ==> '#' !in id2 && rel2 != ""
    requires k1 != Subgroup ==> rel1 == ""
    requires k2 != Subgroup ==> rel2 == ""
    requires MemberToken(k1, id1, rel1) == MemberToken(k2, id2, rel2)
    ensures k1 == k2 && id1 == id2 && rel1 == rel2
  {
    KindOfToken(k1, id1, rel1);
    KindOfToken(k2, id2, rel2);
    if k1 == Subgroup {
      GroupTokenInjective(id1, rel1, id2, rel2);
    } else {
      assert BuildToken(k1, id1)[|KindPrefix(k1)|..] == id1;
      assert BuildToken(k2, id2)[|KindPrefix(k2)|..] == id2;
    }
  }
}
