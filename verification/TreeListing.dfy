// The way down to a group is made of what the pages list, in every state the
// service can be in (internal/groupmgmt/browse.go:81-157).
module TreeListing {
  import opened Tokens
  import opened Tuples
  import opened Graph
  import opened Transitions
  import opened Steps
  import opened Invariants
  import opened Browse
  import opened Keycloak
  import opened SignIn
  import opened Requests

  /** Groups are entered only in groups that exist. */
  ghost predicate ParentsExist(st: State) {
    forall t :: t in st.tuples && t.kind == Subgroup ==> t.objId in st.groups
  }

  /** The tree Browse builds from the store at an instant. */
  ghost predicate IsTreeOf(tree: Tree, st: State, now: Instant) {
    tree.sourceOf.Keys == st.groups.Keys && BuiltFrom(tree, Edges(LiveTuples(st.tuples, now)))
  }

  lemma ParentKnown(tree: Tree, st: State, now: Instant, p: string, c: string)
    requires ParentsExist(st) && IsTreeOf(tree, st, now) && p in ListAt(tree.parents, c)
    ensures p in tree.sourceOf
  {
    assert Edge(p, c) in Edges(LiveTuples(st.tuples, now));
    var t :| t in LiveTuples(st.tuples, now) && t.kind == Subgroup && EdgeOf(t) == Edge(p, c);
  }

  /**
   * A way from a top to a group that exists starts in the source's top listing, and each further group is in the
   * listing of the one before; for groups of a source without a name too.
   */
  lemma WayListed(tree: Tree, st: State, now: Instant, g: string, w: seq<string>)
    requires ParentsExist(st) && IsTreeOf(tree, st, now) && g in st.groups
    requires IsWayFromTop(tree, SourceName(tree, g), w, g)
    ensures InTop(tree, SourceName(tree, g), w[0])
    ensures forall i :: 0 <= i < |w| - 1 ==> InParent(tree, w[i], w[i + 1])
  {
    WayIsListed(tree, Edges(LiveTuples(st.tuples, now)), g, w);
    forall i | 0 <= i < |w| ensures w[i] in tree.sourceOf {
      if i < |w| - 1 {
        assert IsUp(tree, SourceName(tree, g), w[i + 1], w[i]);
        ParentKnown(tree, st, now, w[i], w[i + 1]);
      }
    }
  }

  /** In every state a run leads to. */
  lemma WayListedInRuns(cfg: Config, st: State, run: seq<Moment>, tree: Tree, now: Instant, g: string, w: seq<string>)
    requires ValidConfig(cfg) && Inv(cfg, st)
    requires IsTreeOf(tree, Run(cfg, st, run), now) && g in Run(cfg, st, run).groups
    requires IsWayFromTop(tree, SourceName(tree, g), w, g)
    ensures InTop(tree, SourceName(tree, g), w[0])
    ensures forall i :: 0 <= i < |w| - 1 ==> InParent(tree, w[i], w[i + 1])
  {
    RunKeeps(cfg, st, run);
    assert ParentsExist(Run(cfg, st, run));
    WayListed(tree, Run(cfg, st, run), now, g, w);
  }

  /** Sign-ins do not change that: what they write enters people, not groups. */
  lemma SignInKeepsParents(st: State, pairs: seq<TuplePair>, source: SourceId)
    requires ParentsExist(st) && forall p :: p in pairs ==> p.kind == User
    ensures ParentsExist(SignedIn(st, pairs, source))
  {
    forall t | t in SignedIn(st, pairs, source).tuples && t.kind == Subgroup ensures t.objId in st.groups {
      WrittenOrigin(st.tuples, pairs, source, t);
      if u :| u in st.tuples && KeyOf(u) == KeyOf(t) {
        assert u.objId == t.objId;
      }
    }
  }

  /**
   * While the live groups form no cycle there is such a way to every group, so the one shown is never cut off either.
   */
  lemma AcyclicWayListed(tree: Tree, st: State, now: Instant, g: string) returns (w: seq<string>)
    requires ParentsExist(st) && IsTreeOf(tree, st, now) && g in st.groups
    requires Acyclic(Edges(LiveTuples(st.tuples, now)))
    ensures IsShortestWay(tree, SourceName(tree, g), w, g)
    ensures InTop(tree, SourceName(tree, g), w[0])
    ensures forall i :: 0 <= i < |w| - 1 ==> InParent(tree, w[i], w[i + 1])
  {
    AcyclicHasWay(tree, Edges(LiveTuples(st.tuples, now)), g);
    var some :| IsWayFromTop(tree, SourceName(tree, g), some, g);
    w := ShortestExists(tree, SourceName(tree, g), g, some);
    WayListed(tree, st, now, g, w);
  }

  /** Groups of one source, each entered in the one before by a row in force, the last the one asked about. */
  ghost predicate IsWayOfRows(tree: Tree, st: State, now: Instant, w: seq<string>, g: string) {
    IsNested(st.tuples, now, w) && w[|w| - 1] == g
    && (forall i :: 0 <= i < |w| - 1 ==> SourceName(tree, w[i]) == SourceName(tree, g))
    && forall p :: Enters(st.tuples, now, p, w[0]) ==> SourceName(tree, p) != SourceName(tree, g)
  }

  lemma UpByRows(tree: Tree, st: State, now: Instant, source: string, p: string, c: string)
    requires IsTreeOf(tree, st, now)
    ensures IsUp(tree, source, c, p) <==> Enters(st.tuples, now, p, c) && SourceName(tree, p) == source
  {
    EntersIsEdge(st.tuples, now, p, c);
  }

  lemma WayByRows(tree: Tree, st: State, now: Instant, w: seq<string>, g: string)
    requires IsTreeOf(tree, st, now)
    ensures IsWayFromTop(tree, SourceName(tree, g), w, g) <==> IsWayOfRows(tree, st, now, w, g)
  {
    var source := SourceName(tree, g);
    forall p, c
      ensures IsUp(tree, source, c, p) <==> Enters(st.tuples, now, p, c) && SourceName(tree, p) == source
    {
      UpByRows(tree, st, now, source, p, c);
    }
    if IsWayFromTop(tree, source, w, g) {
      forall i | 0 <= i < |w| - 1
        ensures Enters(st.tuples, now, w[i], w[i + 1]) && SourceName(tree, w[i]) == source
      {
        assert IsUp(tree, source, w[i + 1], w[i]);
      }
    }
    if IsWayOfRows(tree, st, now, w, g) {
      forall i | 0 <= i < |w| - 1 ensures IsUp(tree, source, w[i + 1], w[i]) {
        assert Enters(st.tuples, now, w[i], w[i + 1]);
      }
    }
  }

  /** The way shown is the shortest there is among the rows in force. */
  lemma ShownWayByRows(tree: Tree, st: State, now: Instant, w: seq<string>, g: string)
    requires IsTreeOf(tree, st, now)
    ensures IsShortestWay(tree, SourceName(tree, g), w, g)
            <==> IsWayOfRows(tree, st, now, w, g)
                 && forall other :: IsWayOfRows(tree, st, now, other, g) ==> |w| <= |other|
  {
    forall other ensures IsWayFromTop(tree, SourceName(tree, g), other, g) <==> IsWayOfRows(tree, st, now, other, g) {
      WayByRows(tree, st, now, other, g);
    }
  }

  lemma {:induction false} ShortestExists(tree: Tree, source: string, g: string, some: seq<string>)
    returns (w: seq<string>)
    requires IsWayFromTop(tree, source, some, g)
    ensures IsShortestWay(tree, source, w, g)
    decreases |some|
  {
    if shorter :| IsWayFromTop(tree, source, shorter, g) && |shorter| < |some| {
      w := ShortestExists(tree, source, g, shorter);
    } else {
      w := some;
    }
  }
}
