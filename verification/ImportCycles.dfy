// Where cycles in the live group graph come from: no import is checked for them
// (internal/sync/engine.go:58-131, internal/storage/memory.go:579-667).
module ImportCycles {
  import opened Wrappers
  import opened Sequences
  import opened Text
  import opened Tokens
  import opened Validate
  import opened Tuples
  import opened Graph
  import opened Transitions
  import opened ChangeLaws
  import opened ReplaceLaws
  import opened Steps
  import opened AcyclicRuns
  import opened Engine

  /** Keys the source stores only in entries that are over. */
  function LapsedKeys(ts: seq<Tuple>, sourceId: SourceId, now: Instant): set<Key> {
    SourceKeys(ts, sourceId) - set t | t in ts && t.sourceId == Some(sourceId) && Live(t, now) :: KeyOf(t)
  }

  function KeyEdges(keys: set<Key>): set<Edge> {
    set k | k in keys && k.kind == Subgroup :: Edge(k.objId, k.subjId)
  }

  lemma EdgesOfKeys(L: set<Tuple>)
    ensures Edges(L) == KeyEdges(Keys(L))
  {
    forall t | t in L && t.kind == Subgroup ensures EdgeOf(t) in KeyEdges(Keys(L)) {
      assert KeyOf(t) in Keys(L);
    }
    forall k | k in Keys(L) && k.kind == Subgroup ensures Edge(k.objId, k.subjId) in Edges(L) {
      var t :| t in L && KeyOf(t) == k;
      assert EdgeOf(t) == Edge(k.objId, k.subjId);
    }
  }

  lemma KeyEdgesUnion(a: set<Key>, b: set<Key>)
    ensures KeyEdges(a + b) == KeyEdges(a) + KeyEdges(b)
  {
  }

  /** A key of the import counts afterwards, unless the source has it in entries that are over. */
  lemma ImportedKeyLive(ts: seq<Tuple>, pairs: seq<TuplePair>, sourceId: SourceId, now: Instant, k: Key)
    requires k in ImportKeys(pairs) - LapsedKeys(ts, sourceId, now)
    ensures k in Keys(LiveTuples(ImportedTuples(ts, pairs, sourceId), now))
  {
    var additions := Additions(pairs, SourceKeys(ts, sourceId), sourceId);
    FilterElements(ts + additions, KeptByImport(sourceId, ImportKeys(pairs)));
    AdditionsAreNewKeys(pairs, SourceKeys(ts, sourceId), sourceId);
    AdditionsOwned(pairs, SourceKeys(ts, sourceId), sourceId);
    var t: Tuple;
    if k in SourceKeys(ts, sourceId) {
      t :| t in ts && t.sourceId == Some(sourceId) && Live(t, now) && KeyOf(t) == k;
    } else {
      assert k in KeySet(additions);
      t :| t in additions && KeyOf(t) == k;
    }
    assert t in LiveTuples(ImportedTuples(ts, pairs, sourceId), now);
  }

  /** What counts afterwards is another source's, or a key of the import. */
  lemma LiveKeyImported(ts: seq<Tuple>, pairs: seq<TuplePair>, sourceId: SourceId, now: Instant, t: Tuple)
    requires t in LiveTuples(ImportedTuples(ts, pairs, sourceId), now)
    ensures t in LiveTuples(Filter(ts, NotOwnedBy(sourceId)), now)
            || KeyOf(t) in ImportKeys(pairs) - LapsedKeys(ts, sourceId, now)
  {
    var additions := Additions(pairs, SourceKeys(ts, sourceId), sourceId);
    FilterElements(ts + additions, KeptByImport(sourceId, ImportKeys(pairs)));
    FilterElements(ts, NotOwnedBy(sourceId));
    AdditionsAreNewKeys(pairs, SourceKeys(ts, sourceId), sourceId);
    if t in additions {
      assert KeyOf(t) in KeySet(additions);
    }
  }

  lemma OtherKeyLive(ts: seq<Tuple>, pairs: seq<TuplePair>, sourceId: SourceId, now: Instant, t: Tuple)
    requires t in LiveTuples(Filter(ts, NotOwnedBy(sourceId)), now)
    ensures t in LiveTuples(ImportedTuples(ts, pairs, sourceId), now)
  {
    var all := ts + Additions(pairs, SourceKeys(ts, sourceId), sourceId);
    FilterElements(all, KeptByImport(sourceId, ImportKeys(pairs)));
    FilterElements(ts, NotOwnedBy(sourceId));
    assert t in all;
  }

  /** After an import the live keys are the other sources' and the import's. */
  lemma ImportedLiveKeys(ts: seq<Tuple>, pairs: seq<TuplePair>, sourceId: SourceId, now: Instant)
    ensures Keys(LiveTuples(ImportedTuples(ts, pairs, sourceId), now))
         == Keys(LiveTuples(Filter(ts, NotOwnedBy(sourceId)), now))
            + (ImportKeys(pairs) - LapsedKeys(ts, sourceId, now))
  {
    var L := LiveTuples(ImportedTuples(ts, pairs, sourceId), now);
    var others := LiveTuples(Filter(ts, NotOwnedBy(sourceId)), now);
    forall t | t in L ensures t in others || KeyOf(t) in ImportKeys(pairs) - LapsedKeys(ts, sourceId, now) {
      LiveKeyImported(ts, pairs, sourceId, now, t);
    }
    forall t | t in others ensures t in L {
      OtherKeyLive(ts, pairs, sourceId, now, t);
    }
    forall k | k in ImportKeys(pairs) - LapsedKeys(ts, sourceId, now) ensures k in Keys(L) {
      ImportedKeyLive(ts, pairs, sourceId, now, k);
    }
  }

  /**
   * An import leaves the groups without a cycle exactly when its rows and the other sources' entries have none
   * together; nothing in the code asks that.
   */
  lemma ImportAcyclicIff(ts: seq<Tuple>, pairs: seq<TuplePair>, sourceId: SourceId, now: Instant)
    ensures Acyclic(Edges(LiveTuples(ImportedTuples(ts, pairs, sourceId), now)))
            <==> Acyclic(Edges(LiveTuples(Filter(ts, NotOwnedBy(sourceId)), now))
                         + KeyEdges(ImportKeys(pairs) - LapsedKeys(ts, sourceId, now)))
  {
    var L := LiveTuples(ImportedTuples(ts, pairs, sourceId), now);
    var others := LiveTuples(Filter(ts, NotOwnedBy(sourceId)), now);
    ImportedLiveKeys(ts, pairs, sourceId, now);
    EdgesOfKeys(L);
    EdgesOfKeys(others);
    KeyEdgesUnion(Keys(others), ImportKeys(pairs) - LapsedKeys(ts, sourceId, now));
  }

  // ── The shortest run into a cycle ───────────────────────────────────────────

  /** One group entered in another, as an import writes it. */
  function GroupRow(g: string, h: string): TuplePair {
    TuplePair(g, MEMBER, Subgroup, h)
  }

  lemma MemberChecked(cfg: Config)
    requires ValidConfig(cfg)
    ensures CheckRelation(cfg, MEMBER) == Ok(MEMBER)
  {
    TrimKeeps(MEMBER);
  }

  /** Such a row passes the engine as it stands. */
  lemma GroupRowPrepared(cfg: Config, g: string, h: string)
    requires ValidConfig(cfg) && ValidGroupId(g) && ValidGroupId(h)
    ensures ValidPair(GroupRow(g, h)) && PreparedPair(cfg, GroupRow(g, h)) == Ok(GroupRow(g, h))
    ensures PairKey(GroupRow(g, h)) == Key(g, MEMBER, Subgroup, h, MEMBER)
  {
    GroupIdChars(g);
    GroupIdChars(h);
    NormalizeKeeps(g);
    NormalizeKeeps(h);
    MemberChecked(cfg);
    assert Find(h, '#') == |h| && h[..|h|] == h;
  }

  /** Each of two groups as a member of the other. */
  function CyclicRows(g: string, h: string): seq<TuplePair> {
    [GroupRow(g, h), GroupRow(h, g)]
  }

  lemma CyclicRowsPrepared(cfg: Config, g: string, h: string)
    requires ValidConfig(cfg) && ValidGroupId(g) && ValidGroupId(h)
    ensures forall p :: p in CyclicRows(g, h) ==> ValidPair(p) && PreparedPair(cfg, p) == Ok(p)
    ensures Key(g, MEMBER, Subgroup, h, MEMBER) in ImportKeys(CyclicRows(g, h))
    ensures Key(h, MEMBER, Subgroup, g, MEMBER) in ImportKeys(CyclicRows(g, h))
  {
    GroupRowPrepared(cfg, g, h);
    GroupRowPrepared(cfg, h, g);
    assert CyclicRows(g, h)[0] in CyclicRows(g, h) && CyclicRows(g, h)[1] in CyclicRows(g, h);
  }

  /** The state once somebody has registered a source that reserves nothing. */
  function Registered(cfg: Config, name: string, sourceId: SourceId): State {
    Initial(cfg, name).(sources := Initial(cfg, name).sources[sourceId := Source("import", Csv, [])])
  }

  /** The two events: the source is registered, and it delivers the rows. */
  function CyclicImport(sourceId: SourceId, g: string, h: string, now: Instant): seq<Moment> {
    [Moment(now, SourceCreated(sourceId, Source("import", Csv, []))),
     Moment(now, Synced(sourceId, CyclicRows(g, h), map[]))]
  }

  lemma RunOfTwo(cfg: Config, st: State, run: seq<Moment>)
    requires |run| == 2
    ensures Run(cfg, st, run) == Next(cfg, Next(cfg, st, run[0].ev, run[0].now), run[1].ev, run[1].now)
  {
    assert run[..1] == [run[0]] && run[..1][..0] == [];
    assert Run(cfg, st, run[..1]) == Next(cfg, st, run[0].ev, run[0].now);
  }

  /** Where nobody reserves a name, prepared rows of groups nobody has go through. */
  lemma FirstImportAccepted(cfg: Config, st: State, sourceId: SourceId, rows: seq<TuplePair>,
                            descriptions: map<string, string>)
    requires sourceId in st.sources && st.sources[sourceId].typ == Csv
    requires forall s :: s in st.sources ==> st.sources[s].reserved == []
    requires forall p :: p in rows ==> ValidPair(p) && PreparedPair(cfg, p) == Ok(p) && p.groupId !in st.groups
    ensures RunSync(cfg, st, sourceId, rows, descriptions) == Ok(Replaced(st, sourceId, rows, descriptions))
  {
    PreparedPointwise(cfg, rows, rows);
    FreshGroupsMayWrite(st, sourceId, rows);
    GuardedAccepted(cfg, st, sourceId, rows, rows, descriptions);
  }

  lemma GuardedAccepted(cfg: Config, st: State, sourceId: SourceId, rows: seq<TuplePair>, prepared: seq<TuplePair>,
                        descriptions: map<string, string>)
    requires sourceId in st.sources && st.sources[sourceId].typ == Csv
    requires forall p :: p in rows ==> ValidPair(p)
    requires PreparedPairs(cfg, rows) == Ok(prepared)
    requires forall id :: id in ImportGroups(prepared) ==> MayWrite(st, sourceId, id)
    ensures RunSync(cfg, st, sourceId, rows, descriptions) == Ok(Replaced(st, sourceId, prepared, descriptions))
  {
  }

  lemma FreshGroupsMayWrite(st: State, sourceId: SourceId, rows: seq<TuplePair>)
    requires forall s :: s in st.sources ==> st.sources[s].reserved == []
    requires forall p :: p in rows ==> p.groupId !in st.groups
    ensures forall id :: id in ImportGroups(rows) ==> MayWrite(st, sourceId, id)
  {
    forall id | id in ImportGroups(rows) ensures MayWrite(st, sourceId, id) {
      NobodyReserves(st, sourceId, id);
    }
  }

  lemma NobodyReserves(st: State, sourceId: SourceId, id: string)
    requires forall s :: s in st.sources ==> st.sources[s].reserved == []
    ensures !ReservedByOther(st, sourceId, id)
  {
  }

  /** Rows that enter two groups in each other leave them so. */
  lemma RowsMakeCycle(sourceId: SourceId, rows: seq<TuplePair>, g: string, h: string, now: Instant)
    requires Key(g, MEMBER, Subgroup, h, MEMBER) in ImportKeys(rows)
    requires Key(h, MEMBER, Subgroup, g, MEMBER) in ImportKeys(rows)
    ensures IsCycle(Edges(LiveTuples(ImportedTuples([], rows, sourceId), now)), [g, h, g])
  {
    var L := LiveTuples(ImportedTuples([], rows, sourceId), now);
    ImportedLiveKeys([], rows, sourceId, now);
    EdgesOfKeys(L);
    assert Key(g, MEMBER, Subgroup, h, MEMBER) in Keys(L) && Key(h, MEMBER, Subgroup, g, MEMBER) in Keys(L);
    assert Edge(g, h) in Edges(L) && Edge(h, g) in Edges(L);
  }

  lemma SourceRegistered(cfg: Config, name: string, sourceId: SourceId, now: Instant)
    requires sourceId != cfg.localId
    ensures Next(cfg, Initial(cfg, name), SourceCreated(sourceId, Source("import", Csv, [])), now)
         == Registered(cfg, name, sourceId)
  {
  }

  lemma SyncedTuples(cfg: Config, st: State, sourceId: SourceId, rows: seq<TuplePair>,
                     descriptions: map<string, string>, now: Instant)
    requires RunSync(cfg, st, sourceId, rows, descriptions) == Ok(Replaced(st, sourceId, rows, descriptions))
    ensures Next(cfg, st, Synced(sourceId, rows, descriptions), now) == Replaced(st, sourceId, rows, descriptions)
    ensures Replaced(st, sourceId, rows, descriptions).tuples == ImportedTuples(st.tuples, rows, sourceId)
  {
    assert Outcome(cfg, st, Synced(sourceId, rows, descriptions), now)
        == RunSync(cfg, st, sourceId, rows, descriptions);
  }

  /** A first import of rows entering two groups in each other goes through, and there they are. */
  lemma FirstImportMakesCycle(cfg: Config, st: State, sourceId: SourceId, rows: seq<TuplePair>,
                              descriptions: map<string, string>, g: string, h: string, now: Instant)
    requires sourceId in st.sources && st.sources[sourceId].typ == Csv && st.groups == map[] && st.tuples == []
    requires forall s :: s in st.sources ==> st.sources[s].reserved == []
    requires forall p :: p in rows ==> ValidPair(p) && PreparedPair(cfg, p) == Ok(p)
    requires Key(g, MEMBER, Subgroup, h, MEMBER) in ImportKeys(rows)
    requires Key(h, MEMBER, Subgroup, g, MEMBER) in ImportKeys(rows)
    ensures IsCycle(LiveGraph(Next(cfg, st, Synced(sourceId, rows, descriptions), now), now), [g, h, g])
  {
    FirstImportAccepted(cfg, st, sourceId, rows, descriptions);
    RowsMakeCycle(sourceId, rows, g, h, now);
    SyncedTuples(cfg, st, sourceId, rows, descriptions, now);
  }

  /** For any two ids and any configuration this puts each of the groups inside the other. */
  lemma ImportMakesCycle(cfg: Config, name: string, sourceId: SourceId, g: string, h: string, now: Instant)
    requires ValidConfig(cfg) && sourceId != cfg.localId && ValidGroupId(g) && ValidGroupId(h)
    ensures IsCycle(LiveGraph(Run(cfg, Initial(cfg, name), CyclicImport(sourceId, g, h, now)), now), [g, h, g])
  {
    RunOfTwo(cfg, Initial(cfg, name), CyclicImport(sourceId, g, h, now));
    SourceRegistered(cfg, name, sourceId, now);
    CyclicRowsPrepared(cfg, g, h);
    FirstImportMakesCycle(cfg, Registered(cfg, name, sourceId), sourceId, CyclicRows(g, h), map[], g, h, now);
  }

  // ── A local group on a cycle ────────────────────────────────────────────────

  /** The group contains itself, directly or further down. */
  ghost predicate OnCycle(E: set<Edge>, l: string) {
    exists p :: IsCycle(E, p) && l in p
  }

  /** The live entries of every source but one. */
  function OthersGraph(st: State, sourceId: SourceId, now: Instant): set<Edge> {
    Edges(LiveTuples(Filter(st.tuples, NotOwnedBy(sourceId)), now))
  }

  /** What the rows of an import add to the graph. */
  function RowsGraph(st: State, rows: seq<TuplePair>, sourceId: SourceId, now: Instant): set<Edge> {
    KeyEdges(ImportKeys(rows) - LapsedKeys(st.tuples, sourceId, now))
  }

  lemma ImportedGraph(st: State, rows: seq<TuplePair>, sourceId: SourceId, now: Instant)
    ensures Edges(LiveTuples(ImportedTuples(st.tuples, rows, sourceId), now))
         == OthersGraph(st, sourceId, now) + RowsGraph(st, rows, sourceId, now)
  {
    var others := LiveTuples(Filter(st.tuples, NotOwnedBy(sourceId)), now);
    ImportedLiveKeys(st.tuples, rows, sourceId, now);
    EdgesOfKeys(LiveTuples(ImportedTuples(st.tuples, rows, sourceId), now));
    EdgesOfKeys(others);
    KeyEdgesUnion(Keys(others), ImportKeys(rows) - LapsedKeys(st.tuples, sourceId, now));
  }

  /** Any two groups on a cycle lie below each other. */
  lemma AroundCycle(E: set<Edge>, p: seq<string>, i: nat, j: nat)
    requires IsCycle(E, p) && i < |p| && j < |p|
    ensures Encloses(E, p[i], p[j])
  {
    if i <= j {
      PathSlice(E, p, i, j + 1);
      assert Connects(E, p[i..j + 1], p[i], p[j]);
    } else {
      PathSlice(E, p, i, |p|);
      if j == 0 {
        assert Connects(E, p[i..|p|], p[i], p[j]);
      } else {
        PathSlice(E, p, 1, j + 1);
        PathJoin(E, p[i..|p|], p[1..j + 1]);
        assert Connects(E, p[i..|p|] + p[1..j + 1], p[i], p[j]);
      }
    }
  }

  /** A way down to an edge and one back from it close a cycle. */
  lemma CycleThrough(E: set<Edge>, l: string, e: Edge)
    requires e in E && Encloses(E, l, e.parent) && Encloses(E, e.child, l)
    ensures OnCycle(E, l)
  {
    var down :| Connects(E, down, l, e.parent);
    var back :| Connects(E, back, e.child, l);
    PathJoin(E, down, back);
    var p := down + back;
    assert p[0] == l && p[|p| - 1] == l;
    assert IsCycle(E, p) && l in p;
  }

  /** A cycle that uses an edge of N shows it; one that uses none is a cycle without N. */
  lemma CycleUses(E: set<Edge>, N: set<Edge>, p: seq<string>, l: string)
    requires IsCycle(E + N, p) && l in p
    ensures OnCycle(E, l) || exists e :: e in N && Encloses(E + N, l, e.parent) && Encloses(E + N, e.child, l)
  {
    if forall j :: 0 <= j < |p| - 1 ==> Edge(p[j], p[j + 1]) in E {
      assert IsCycle(E, p);
    } else {
      var j :| 0 <= j < |p| - 1 && Edge(p[j], p[j + 1]) !in E;
      assert Edge(p[j], p[j + 1]) in E + N;
      var i :| 0 <= i < |p| && p[i] == l;
      AroundCycle(E + N, p, i, j);
      AroundCycle(E + N, p, j + 1, i);
      assert Edge(p[j], p[j + 1]) in N;
    }
  }

  lemma OnCycleIff(E: set<Edge>, N: set<Edge>, l: string)
    ensures OnCycle(E + N, l)
            <==> OnCycle(E, l) || exists e :: e in N && Encloses(E + N, l, e.parent) && Encloses(E + N, e.child, l)
  {
    if OnCycle(E + N, l) {
      var p :| IsCycle(E + N, p) && l in p;
      CycleUses(E, N, p, l);
    }
    if OnCycle(E, l) {
      var p :| IsCycle(E, p) && l in p;
      PathMonotone(E, E + N, p);
      assert IsCycle(E + N, p);
    }
    if e :| e in N && Encloses(E + N, l, e.parent) && Encloses(E + N, e.child, l) {
      CycleThrough(E + N, l, e);
    }
  }

  /**
   * A group maintained here is still one after an import of another source, and contains itself then exactly when it
   * did by the other sources' entries alone, or a row joins a group below it to one above it.
   */
  lemma LocalOnCycleIff(cfg: Config, st: State, sourceId: SourceId, pairs: seq<TuplePair>,
                        descriptions: map<string, string>, l: string, now: Instant)
    requires RunSync(cfg, st, sourceId, pairs, descriptions).Ok? && sourceId != cfg.localId
    requires l in st.groups && st.groups[l].sourceId == Some(cfg.localId)
    ensures var after := RunSync(cfg, st, sourceId, pairs, descriptions).value;
            var E, N := OthersGraph(st, sourceId, now), RowsGraph(st, PreparedPairs(cfg, pairs).value, sourceId, now);
            l in after.groups && after.groups[l].sourceId == Some(cfg.localId)
            && (OnCycle(LiveGraph(after, now), l)
                <==> OnCycle(E, l) || exists e :: e in N && Encloses(E + N, l, e.parent) && Encloses(E + N, e.child, l))
  {
    var rows := PreparedPairs(cfg, pairs).value;
    OwnersKept(st, sourceId, rows, descriptions, l);
    ImportedGraph(st, rows, sourceId, now);
    OnCycleIff(OthersGraph(st, sourceId, now), RowsGraph(st, rows, sourceId, now), l);
  }

  // ── Row by row ──────────────────────────────────────────────────────────────

  lemma AcyclicWithin(E: set<Edge>, E': set<Edge>)
    requires E <= E' && Acyclic(E')
    ensures Acyclic(E)
  {
    forall p | IsCycle(E, p) ensures IsCycle(E', p) {
      PathMonotone(E, E', p);
    }
  }

  /** Each edge, in turn, passes the check AddMember makes: its child does not contain its parent by then. */
  ghost predicate PassesInTurn(E: set<Edge>, es: seq<Edge>) {
    forall i :: 0 <= i < |es| ==> !Encloses(E + Elements(es[..i]), es[i].child, es[i].parent)
  }

  lemma PassesMore(E: set<Edge>, es: seq<Edge>, e: Edge)
    ensures PassesInTurn(E, es + [e]) <==> PassesInTurn(E, es) && !Encloses(E + Elements(es), e.child, e.parent)
  {
    assert (es + [e])[..|es|] == es && (es + [e])[|es|] == e;
    forall i | 0 <= i < |es| ensures (es + [e])[..i] == es[..i] && (es + [e])[i] == es[i] {
    }
  }

  /** Edges added one after the other leave no cycle exactly when there was none and each passes in its turn. */
  lemma {:induction false} AcyclicInTurn(E: set<Edge>, es: seq<Edge>)
    ensures Acyclic(E + Elements(es)) <==> Acyclic(E) && PassesInTurn(E, es)
  {
    if es == [] {
      assert E + Elements(es) == E;
    } else {
      var init, last := es[..|es| - 1], es[|es| - 1];
      assert es == init + [last];
      ElementsConcat(init, [last]);
      assert E + Elements(es) == (E + Elements(init)) + {Edge(last.parent, last.child)};
      PassesMore(E, init, last);
      AcyclicInTurn(E, init);
      if Acyclic(E + Elements(es)) {
        AcyclicWithin(E + Elements(init), E + Elements(es));
      }
      if Acyclic(E + Elements(init)) {
        AcyclicWithEdge(E + Elements(init), last.parent, last.child);
      }
    }
  }

  /**
   * The edges of an import's group rows, in the order of the rows, but for those the source has in entries that are
   * over.
   */
  function RowEdges(rows: seq<TuplePair>, lapsed: set<Key>): seq<Edge> {
    if rows == [] then []
    else
      var k := PairKey(rows[|rows| - 1]);
      RowEdges(rows[..|rows| - 1], lapsed)
      + if k.kind == Subgroup && k !in lapsed then [Edge(k.objId, k.subjId)] else []
  }

  lemma {:induction false} RowEdgesElements(rows: seq<TuplePair>, lapsed: set<Key>)
    ensures Elements(RowEdges(rows, lapsed)) == KeyEdges(ImportKeys(rows) - lapsed)
  {
    if rows != [] {
      var init, p := rows[..|rows| - 1], rows[|rows| - 1];
      var k := PairKey(p);
      assert rows == init + [p];
      RowEdgesElements(init, lapsed);
      KeysOneMore(init, p);
      var more: seq<Edge> := if k.kind == Subgroup && k !in lapsed then [Edge(k.objId, k.subjId)] else [];
      ElementsConcat(RowEdges(init, lapsed), more);
      KeyEdgesUnion(ImportKeys(init) - lapsed, {k} - lapsed);
      assert ImportKeys(rows) - lapsed == (ImportKeys(init) - lapsed) + ({k} - lapsed);
      assert KeyEdges({k} - lapsed) == Elements(more);
    }
  }

  /**
   * An import leaves no cycle exactly when the other sources' live entries have none and every group row, in turn,
   * passes the check AddMember makes, with the rows before it counted in. That check is what no import goes through.
   */
  lemma ImportAcyclicInTurn(st: State, rows: seq<TuplePair>, sourceId: SourceId, now: Instant)
    ensures Acyclic(Edges(LiveTuples(ImportedTuples(st.tuples, rows, sourceId), now)))
            <==> Acyclic(OthersGraph(st, sourceId, now))
                 && PassesInTurn(OthersGraph(st, sourceId, now), RowEdges(rows, LapsedKeys(st.tuples, sourceId, now)))
  {
    var lapsed := LapsedKeys(st.tuples, sourceId, now);
    ImportedGraph(st, rows, sourceId, now);
    RowEdgesElements(rows, lapsed);
    AcyclicInTurn(OthersGraph(st, sourceId, now), RowEdges(rows, lapsed));
  }

  // ── A run that puts a local group inside itself ─────────────────────────────

  const ADMIN := Caller(true, [])

  /** A source is registered; an admin creates a group and enters another one in it, which no source delivers yet. */
  function LocalRun(sourceId: SourceId, l: string, i: string, now: Instant): seq<Moment> {
    [Moment(now, SourceCreated(sourceId, Source("import", Csv, []))),
     Moment(now, GroupCreated(ADMIN, l, "", "", [])),
     Moment(now, MemberAdded(ADMIN, GROUP_PREFIX + l, "", GROUP_PREFIX + i, None))]
  }

  /** Then the source delivers the other group, with the first one in it. */
  function ClosingImport(sourceId: SourceId, l: string, i: string, now: Instant): Moment {
    Moment(now, Synced(sourceId, [GroupRow(i, l)], map[]))
  }

  lemma GroupIdNormalized(g: string)
    requires ValidGroupId(g)
    ensures NormalizeId(g) == g && TrimSpace(g) == g && TrimPrefix(g, GROUP_PREFIX) == g
  {
    GroupIdChars(g);
    NormalizeKeeps(g);
    assert g[0] in g && g[|g| - 1] in g;
    TrimKeeps(g);
    forall i | 0 <= i < |g| ensures g[i] != GROUP_PREFIX[5] {
      assert g[i] in g;
    }
  }

  lemma GroupTokenParsed(g: string)
    requires ValidGroupId(g)
    ensures ParseGroupToken(GROUP_PREFIX + g) == Ok(g)
  {
    GroupIdChars(g);
    GroupIdNormalized(g);
    assert g[|g| - 1] in g;
    TrimBuilt(Subgroup, g);
    assert (GROUP_PREFIX + g)[|GROUP_PREFIX|..] == g;
  }

  lemma MemberTokenParsed(g: string)
    requires ValidGroupId(g)
    ensures ParseMemberToken(GROUP_PREFIX + g) == Ok((Subgroup, g)) && MemberGroup(g) == (g, MEMBER)
  {
    GroupIdChars(g);
    assert Find(g, '#') == |g| && g[..|g|] == g;
    ParseBuilt(Subgroup, g);
  }

  lemma LocalGroupCreated(cfg: Config, st: State, g: string)
    requires ValidGroupId(g) && st.groups == map[] && forall s :: s in st.sources ==> st.sources[s].reserved == []
    ensures CreateGroup(cfg, st, ADMIN, g, "", "", [])
         == Ok(st.(groups := map[g := Group(g, "", Some(cfg.localId))]))
  {
    GroupIdNormalized(g);
    assert st.groups[g := Group(g, "", Some(cfg.localId))] == map[g := Group(g, "", Some(cfg.localId))];
  }

  lemma NoWayDown(a: string, b: string)
    requires a != b
    ensures !Encloses({}, a, b)
  {
    forall p ensures !Connects({}, p, a, b) {
      if |p| >= 2 {
        var e := Edge(p[0], p[1]);
        assert e !in {};
      }
    }
  }

  lemma PlainMemberChecked(cfg: Config, h: string, now: Instant)
    requires ValidConfig(cfg) && ValidGroupId(h)
    ensures CheckMember(cfg, "", GROUP_PREFIX + h, None, now) == Ok(Member(MEMBER, Subgroup, h))
    ensures MemberGroup(h) == (h, MEMBER)
  {
    MemberTokenParsed(h);
    assert NormalizeRelation(TrimSpace("")) == MEMBER;
  }

  lemma FirstMemberAdded(cfg: Config, st: State, g: string, h: string, now: Instant)
    requires ValidConfig(cfg) && ValidGroupId(g) && ValidGroupId(h) && g != h
    requires g in st.groups && st.groups[g].sourceId == Some(cfg.localId) && st.tuples == []
    ensures AddMember(cfg, st, ADMIN, GROUP_PREFIX + g, "", GROUP_PREFIX + h, None, now)
         == Ok(st.(tuples := [NewTuple(Key(g, MEMBER, Subgroup, h, MEMBER), Some(cfg.localId), None)]))
  {
    PlainMemberChecked(cfg, h, now);
    GroupTokenParsed(g);
    assert LocalGroup(cfg, st, ADMIN, GROUP_PREFIX + g) == Ok(g);
    assert MakeKey(g, MEMBER, Subgroup, h) == Key(g, MEMBER, Subgroup, h, MEMBER);
    assert LiveTuples(st.tuples, now) == {};
    assert Edges({}) == {};
    NoWayDown(h, g);
    NothingThere(Key(g, MEMBER, Subgroup, h, MEMBER), Some(cfg.localId));
  }

  lemma NothingThere(k: Key, sourceId: Option<SourceId>)
    ensures Upsert([], k, sourceId, None) == [NewTuple(k, sourceId, None)]
  {
  }

  lemma RunMore(cfg: Config, st: State, run: seq<Moment>, last: Moment)
    ensures Run(cfg, st, run + [last]) == Next(cfg, Run(cfg, st, run), last.ev, last.now)
  {
    assert (run + [last])[..|run|] == run;
  }

  lemma RunOfThree(cfg: Config, st: State, run: seq<Moment>)
    requires |run| == 3
    ensures Run(cfg, st, run)
         == Next(cfg, Next(cfg, Next(cfg, st, run[0].ev, run[0].now), run[1].ev, run[1].now), run[2].ev, run[2].now)
  {
    RunOfTwo(cfg, st, run[..2]);
  }

  /** One local group with one group in it, and the source. */
  function Entered(cfg: Config, name: string, sourceId: SourceId, l: string, i: string): State {
    Registered(cfg, name, sourceId).(
      groups := map[l := Group(l, "", Some(cfg.localId))],
      tuples := [NewTuple(Key(l, MEMBER, Subgroup, i, MEMBER), Some(cfg.localId), None)])
  }

  lemma LocalRunLeads(cfg: Config, name: string, sourceId: SourceId, l: string, i: string, now: Instant)
    requires ValidConfig(cfg) && sourceId != cfg.localId && ValidGroupId(l) && ValidGroupId(i) && l != i
    ensures Run(cfg, Initial(cfg, name), LocalRun(sourceId, l, i, now)) == Entered(cfg, name, sourceId, l, i)
  {
    var run := LocalRun(sourceId, l, i, now);
    var registered := Registered(cfg, name, sourceId);
    var created := registered.(groups := map[l := Group(l, "", Some(cfg.localId))]);
    RunOfThree(cfg, Initial(cfg, name), run);
    SourceRegistered(cfg, name, sourceId, now);
    LocalGroupCreated(cfg, registered, l);
    assert Next(cfg, registered, run[1].ev, now) == created;
    FirstMemberAdded(cfg, created, l, i, now);
  }

  /** Against a local entry l holds i, a row that i holds l closes the cycle. */
  lemma RowClosesCycle(st: State, sourceId: SourceId, owner: SourceId, rows: seq<TuplePair>, l: string, i: string,
                       now: Instant)
    requires sourceId != owner
    requires st.tuples == [NewTuple(Key(l, MEMBER, Subgroup, i, MEMBER), Some(owner), None)]
    requires Key(i, MEMBER, Subgroup, l, MEMBER) in ImportKeys(rows)
    ensures IsCycle(Edges(LiveTuples(ImportedTuples(st.tuples, rows, sourceId), now)), [l, i, l])
  {
    var t := st.tuples[0];
    FilterElements(st.tuples, NotOwnedBy(sourceId));
    assert t in st.tuples && t in LiveTuples(Filter(st.tuples, NotOwnedBy(sourceId)), now);
    assert EdgeOf(t) == Edge(l, i);
    assert LapsedKeys(st.tuples, sourceId, now) == {};
    ImportedGraph(st, rows, sourceId, now);
    assert Edge(i, l) in RowsGraph(st, rows, sourceId, now);
  }

  lemma LocalGroupStays(cfg: Config, st: State, sourceId: SourceId, rows: seq<TuplePair>,
                        descriptions: map<string, string>, l: string)
    requires l in st.groups && st.groups[l].sourceId == Some(cfg.localId) && sourceId != cfg.localId
    ensures var after := Replaced(st, sourceId, rows, descriptions);
            l in after.groups && after.groups[l].sourceId == Some(cfg.localId)
  {
    OwnersKept(st, sourceId, rows, descriptions, l);
  }

  /** The step: the import is accepted, the local group stays local, and the cycle is closed. */
  lemma ImportClosesCycle(cfg: Config, st: State, sourceId: SourceId, rows: seq<TuplePair>,
                          descriptions: map<string, string>, l: string, i: string, now: Instant)
    requires sourceId != cfg.localId && sourceId in st.sources && st.sources[sourceId].typ == Csv
    requires forall s :: s in st.sources ==> st.sources[s].reserved == []
    requires l in st.groups && st.groups[l].sourceId == Some(cfg.localId)
    requires st.tuples == [NewTuple(Key(l, MEMBER, Subgroup, i, MEMBER), Some(cfg.localId), None)]
    requires forall p :: p in rows ==> ValidPair(p) && PreparedPair(cfg, p) == Ok(p) && p.groupId !in st.groups
    requires Key(i, MEMBER, Subgroup, l, MEMBER) in ImportKeys(rows)
    ensures var after := Next(cfg, st, Synced(sourceId, rows, descriptions), now);
            IsCycle(LiveGraph(after, now), [l, i, l])
            && l in after.groups && after.groups[l].sourceId == Some(cfg.localId)
  {
    FirstImportAccepted(cfg, st, sourceId, rows, descriptions);
    RowClosesCycle(st, sourceId, cfg.localId, rows, l, i, now);
    SyncedTuples(cfg, st, sourceId, rows, descriptions, now);
    LocalGroupStays(cfg, st, sourceId, rows, descriptions, l);
  }

  lemma OneRowReady(cfg: Config, g: string, h: string)
    requires ValidConfig(cfg) && ValidGroupId(g) && ValidGroupId(h)
    ensures forall p :: p in [GroupRow(g, h)] ==> ValidPair(p) && PreparedPair(cfg, p) == Ok(p) && p.groupId == g
    ensures Key(g, MEMBER, Subgroup, h, MEMBER) in ImportKeys([GroupRow(g, h)])
  {
    GroupRowPrepared(cfg, g, h);
    assert [GroupRow(g, h)][0] in [GroupRow(g, h)];
  }

  lemma LocalRunAcyclic(cfg: Config, name: string, sourceId: SourceId, l: string, i: string, now: Instant)
    ensures Acyclic(LiveGraph(Run(cfg, Initial(cfg, name), LocalRun(sourceId, l, i, now)), now))
  {
    RunAcyclic(cfg, name, LocalRun(sourceId, l, i, now), now, now);
  }

  lemma ClosingStep(cfg: Config, name: string, sourceId: SourceId, l: string, i: string, now: Instant)
    requires ValidConfig(cfg) && sourceId != cfg.localId && ValidGroupId(l) && ValidGroupId(i) && l != i
    ensures var after := Next(cfg, Entered(cfg, name, sourceId, l, i), ClosingImport(sourceId, l, i, now).ev, now);
            IsCycle(LiveGraph(after, now), [l, i, l])
            && l in after.groups && after.groups[l].sourceId == Some(cfg.localId)
  {
    OneRowReady(cfg, i, l);
    ImportClosesCycle(cfg, Entered(cfg, name, sourceId, l, i), sourceId, [GroupRow(i, l)], map[], l, i, now);
  }

  /**
   * So a group maintained here can come to contain itself after all, whatever the ids and the configuration: up to the
   * import nothing did, the import touches no group but its own, and after it the local group lies inside itself.
   */
  lemma ImportTakesLocalGroupIn(cfg: Config, name: string, sourceId: SourceId, l: string, i: string, now: Instant)
    requires ValidConfig(cfg) && sourceId != cfg.localId && ValidGroupId(l) && ValidGroupId(i) && l != i
    ensures var before := Run(cfg, Initial(cfg, name), LocalRun(sourceId, l, i, now));
            var run := LocalRun(sourceId, l, i, now) + [ClosingImport(sourceId, l, i, now)];
            var after := Run(cfg, Initial(cfg, name), run);
            Acyclic(LiveGraph(before, now)) && IsCycle(LiveGraph(after, now), [l, i, l])
            && l in before.groups && before.groups[l].sourceId == Some(cfg.localId)
            && l in after.groups && after.groups[l].sourceId == Some(cfg.localId)
  {
    LocalRunLeads(cfg, name, sourceId, l, i, now);
    LocalRunAcyclic(cfg, name, sourceId, l, i, now);
    RunMore(cfg, Initial(cfg, name), LocalRun(sourceId, l, i, now), ClosingImport(sourceId, l, i, now));
    ClosingStep(cfg, name, sourceId, l, i, now);
  }
}
