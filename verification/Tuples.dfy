// Tuples, groups, sources and the state a store holds (internal/storage/memory.go).
module Tuples {
  import opened Wrappers
  import opened Sequences
  import opened Tokens

  /** A point in time; one operation reads the clock once. */
  type Instant = int

  /** A source's uuid. */
  type SourceId = nat

  datatype Tuple = Tuple(
    objId: string,
    relation: string,
    kind: Kind,
    subjId: string,
    subjRel: string,
    sourceId: Option<SourceId>,
    expires: Option<Instant>)

  /** What identifies a tuple: the columns of the unique index. */
  datatype Key = Key(objId: string, relation: string, kind: Kind, subjId: string, subjRel: string)

  datatype Group = Group(displayName: string, description: string, sourceId: Option<SourceId>)

  datatype SourceType = Csv | Ldif | Keycloak | Local

  /** A sync source, or the local one, with the globs of the group ids only it may create. */
  datatype Source = Source(name: string, typ: SourceType, reserved: seq<string>)

  /** Groups by id, sources by uuid, the tuple list, and each group's manager tokens. */
  datatype State = State(
    groups: map<string, Group>,
    sources: map<SourceId, Source>,
    tuples: seq<Tuple>,
    managers: map<string, seq<string>>)

  /** One row of an import. */
  datatype TuplePair = TuplePair(groupId: string, relation: string, kind: Kind, memberId: string)

  predicate Live(t: Tuple, now: Instant) {
    t.expires == None || t.expires.value > now
  }

  function LiveTuples(ts: seq<Tuple>, now: Instant): set<Tuple> {
    set t | t in ts && Live(t, now)
  }

  function KeyOf(t: Tuple): Key {
    Key(t.objId, t.relation, t.kind, t.subjId, t.subjRel)
  }

  function MakeKey(groupId: string, relation: string, kind: Kind, memberId: string): Key {
    var (subjId, subjRel) := Subject(kind, memberId);
    Key(groupId, NormalizeRelation(relation), kind, subjId, subjRel)
  }

  function PairKey(p: TuplePair): Key {
    MakeKey(p.groupId, p.relation, p.kind, p.memberId)
  }

  function NewTuple(k: Key, sourceId: Option<SourceId>, expires: Option<Instant>): Tuple {
    Tuple(k.objId, k.relation, k.kind, k.subjId, k.subjRel, sourceId, expires)
  }

  /** Every write goes through NormalizeRelation and Subject, which leave keys of this form. */
  predicate WellFormedKey(k: Key) {
    k.relation != ""
    && (k.kind == Subgroup ==> k.subjRel != "" && '#' !in k.subjId)
    && (k.kind != Subgroup ==> k.subjRel == "")
  }

  predicate WellFormed(ts: seq<Tuple>) {
    forall t :: t in ts ==> WellFormedKey(KeyOf(t))
  }

  predicate UniqueKeys(ts: seq<Tuple>) {
    forall i, j :: 0 <= i < j < |ts| ==> KeyOf(ts[i]) != KeyOf(ts[j])
  }

  /** The tuple has the group as its object or as its subject. */
  predicate Mentions(t: Tuple, id: string) {
    t.objId == id || (t.kind == Subgroup && t.subjId == id)
  }

  lemma MadeKeyWellFormed(groupId: string, relation: string, kind: Kind, memberId: string)
    ensures WellFormedKey(MakeKey(groupId, relation, kind, memberId))
  {
    JoinSplit(memberId);
  }

  lemma {:induction false} FilterKeepsUniqueKeys(ts: seq<Tuple>, keep: Tuple -> bool)
    requires UniqueKeys(ts)
    ensures UniqueKeys(Filter(ts, keep))
  {
    if ts != [] {
      var init := Filter(ts[..|ts| - 1], keep);
      FilterKeepsUniqueKeys(ts[..|ts| - 1], keep);
      FilterElements(ts[..|ts| - 1], keep);
      forall i | 0 <= i < |init|
        ensures KeyOf(init[i]) != KeyOf(ts[|ts| - 1])
      {
        assert init[i] in ts[..|ts| - 1];
      }
    }
  }
}
