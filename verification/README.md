# A model of the group store

The service is a tuple store in the style of Zanzibar. A tuple
`(group, relation, subject kind, subject id, subject relation, source, expiry)` says that a
person, an e-mail pattern or another group is something in a group. From the tuples the
service answers two questions: which tokens a person holds (upwards, through nesting and
patterns), and whom a group counts (downwards). People maintain groups through a service
that checks ownership, managers and cycles; sync sources replace everything they own with
their latest import; a Keycloak source derives memberships from attributes.

This project models that core in Dafny and proves what the operations promise. `dafny verify
dfyconfig.toml` checks all of it.

## How it is built

Meaning first, algorithms against it. `Resolution` defines holding and being counted by
chains of live tuples and shows that each is the least fixpoint; the worklists of the memory
store and the recursive queries of Postgres are separate programs proved to compute it.
`Transitions` says what each store operation does to the state, and `MemoryStore.Store` is
the imperative program (a backing array and a length, compacted in place) proved against it.
`Steps` puts the guards of the service, the engine and the source administration around the
store operations; `Service.GroupService` and `Engine.SyncEngine` are the programs, proved
against the steps. `Invariants` and `AcyclicRuns` are about all serial runs of these steps.

What is asked and what is done has a second reading that does not use these definitions: `Rules`
gives both answers by the columns of single rows, and `Requests`, `GroupRequests` and `Deliveries` say of each request and
each sync, column by column, when it is accepted and what it leaves.

| File | About |
|---|---|
| `Text`, `Sequences`, `Wrappers`, `Sort` | strings as Go's `strings` package treats them, lists of a set and filters, results and options, stable sorting |
| `Tokens`, `Patterns`, `Validate` | printing and parsing tokens, globs, the shapes of ids |
| `Tuples`, `Transitions` | the data, and each store operation as a function of the state |
| `Resolution`, `UserTokens`, `Traversals`, `RecursiveQueries` | what is held and counted, how it is printed, and the four ways it is computed |
| `Rules`, `Expiry` | the same answers by the columns of rows, and what an end does to them |
| `MemoryStore` | the store as a class |
| `EntryLaws`, `ChangeLaws`, `ReplaceLaws` | what adding, changing, deleting, moving and importing leave, and do to everyone |
| `Graph`, `CycleCheck`, `Browse`, `TreeListing` | the graph of groups in groups: the cycle check, the tree, the shortest way down and the pages it is made of |
| `Steps`, `Invariants`, `AcyclicRuns`, `ImportCycles` | guarded steps, and what every run keeps |
| `Requests`, `GroupRequests`, `Deliveries` | when a step is accepted and what it leaves, column by column; what a caller without rights cannot do |
| `Service`, `Engine`, `Keycloak` | the service, the engine with adoption, and the identity source as classes |
| `Claims` | what single attribute values grant |
| `SignIn`, `SignInRuns` | what a sign-in writes, what holds until the source's next run, and what that run makes of it |
| `Postgres`, `PostgresImport`, `NormalizeIds` | where the database does the same by other means |
| `Query`, `Catalog`, `SearchLaws` | the search query, the ranked lookup in the cache, and what a typed query finds in which columns |

One operation reads the clock once: `now` is a parameter. Fresh uuids, what the directory
answers and the rows an importer parsed are parameters too.

## What the code does not keep

Promises of the documentation, or of one store against the other, that do not hold of the code as
they stand, with the exact condition under which they do, in the members named.

- **Deleting a group on Postgres can take manager rights from another group.** The statement
  finds manager tokens with `LIKE 'group:<id>#%'`, and `_`, which ids may contain, is a
  wildcard of LIKE. Deleting `a_b` removes the token `group:axb#dozent` from every group it
  maintains (`Postgres.UnderscoreTakesAnothersManagers`). Over all manager lists the service can
  have stored, the two stores agree exactly when the id has no underscore or no relation beyond
  `member` is configured (`Postgres.DeleteGroupAgrees`). The clean-up after a sync uses the same
  pattern and errs the harmless way: it keeps more groups (`Postgres.CleanUpKeepsMore`,
  `Postgres.CleanUpAgreesIff`).
- **Imports can put a local group inside itself.** The documentation says of the groups
  maintained here that none can end up containing itself. No import is checked: a local group l
  holds i, a source delivers i with l in it, and since only i's owner is looked at the row is
  accepted (`ImportCycles.ImportTakesLocalGroupIn`, a run of four events from an empty store).
  After an accepted import a local group contains itself exactly when it did by the other
  sources' live entries alone, or a row joins a group below it to one above it
  (`ImportCycles.LocalOnCycleIff`); the whole graph stays acyclic exactly when the rows and the
  other sources' live entries are acyclic together (`ImportCycles.ImportAcyclicIff`), which is to
  say: the others' have no cycle, and each group row, in turn, passes the check that adding a
  member makes (`ImportCycles.ImportAcyclicInTurn`). Every other step never adds a cycle
  (`AcyclicRuns.RunCycles`).
- **A single-user read can write into a group that is not the source's.** `EnsureUser` writes
  memberships straight into the store. All it writes keeps one writer per group exactly when each
  entry is there already or its group is the source's (`SignIn.DirectWritesIff`). On a new service
  with its Keycloak source set up and every invariant holding, the first sign-in writes an entry
  of a group that does not exist (`SignIn.FirstSignInHasNoGroup`). Nothing else gives way: over all
  sign-ins mixed with all other steps, only the Keycloak source's own entries can lack a group of
  that source, or have a key that another source stores too (`SignInRuns.TurnsKeepBut`). Its next
  accepted run brings the whole invariant back (`SignInRuns.AcceptedRunRestores`).
- **A second identical import on Postgres may report additions.** Inserts that meet the unique
  index are dropped in silence but counted. A second run reports (0, 0) exactly when no other
  source stores a key of the import (`PostgresImport.SecondRunReports`, with the one-row case
  `PostgresImport.ReportedAgain`); behind the engine's guard that is so in every reachable state
  (`Invariants.GuardedImportUnique`).
- **The counts of the memory store.** What a sync reports as removed is the number of the
  source's keys the import no longer has exactly when none of them was stored twice
  (`ReplaceLaws.CountsAreDifferences`; `ReplaceLaws.RemovedTwice` is a list where it is not). In
  every reachable state no key is, and both counts are right (`Invariants.CountsInRuns`).
- **Normalizing old ids can end a membership.** Of two spellings of an entry the one with the
  smaller uuid stays, with its own expiry. If that one is over, the other one's validity is lost
  with it (`NormalizeIds.LapsedSpellingWins`); no entry that counts is lost exactly when the first
  spelling of each still counts (`NormalizeIds.NormalizingEndsNoneIff`).
- **Search words are required, not alternatives.** The documentation calls words side by side
  alternatives; the code finds an entry exactly when every one of them matches
  (`Query.WordsAreRequired`). Its own example, `mannheim karlsruhe`, does not find the group
  `mannheim` (`Catalog.WordsAreNoAlternatives`, one of `Catalog.NotFoundByBoth`). For words without
  a wildcard the two readings find the same, whatever the fields, exactly when all words are the
  same term (`Query.ReadingsAgreeIff`). Alternatives need ODER, OR or `|`.

## Model

| member | source | states |
|---|---|---|
| Tokens.SplitJoin | internal/common/types.go:182-195 | splitting what was joined gives group and relation back, `member` being the unprinted relation |
| Tokens.JoinSplit | internal/common/types.go:182-203 | joining what was split gives the id back, except that `x#member` becomes `x`; the group part never holds a separator |
| Tokens.GroupTokenNames | internal/storage/memory.go:181-191 | the group a manager token names, whatever its relation, is the one it was printed for |
| Tokens.GroupTokenInjective | internal/common/types.go:205-207 | a (group, relation) pair can be read back from its token |
| Tokens.MemberTokenInjective | internal/storage/memory.go:793-806 | distinct stored subjects print distinct tokens, across all three kinds |
| Patterns.MatchGlob | internal/common/pattern.go:19-42 | the character-by-character translation answers what the glob means on normalized text, and nothing matches an empty side |
| Patterns.AcceptsMeansFilled | internal/common/pattern.go:19-42 | a glob accepts a text iff the text is the glob with every star replaced by some run of characters without a line break |
| Patterns.LiteralGlob | internal/common/pattern.go:19-42 | a glob without a star matches itself and nothing else |
| Patterns.SuffixGlob | internal/common/pattern.go:19-42 | a star in front of a literal matches exactly the one-line texts ending in it |
| Validate.ParsePrintedMember | internal/groupmgmt/service.go:783-797 | for every valid member, storing it, printing the stored subject and parsing that token gives the member back, `x#member` as `x` |
| Validate.CanonicalValid | internal/groupmgmt/service.go:783-797 | the spelling a member is stored under is valid and is its own stored spelling |
| Validate.MemberChars | internal/common/validate.go:69-87 | accepted member ids are non-empty and normalizing leaves them alone |
| Validate.GroupIdChars | internal/common/validate.go:13-35 | an accepted group id carries no token prefix, relation separator or wildcard |
| Validate.DomainPattern | internal/common/validate.go:57-66 | an accepted pattern `*@d` matches a valid address iff the part after its only `@` is d: no wider than it reads |
| Validate.LiteralPattern | internal/common/validate.go:57-66 | an accepted literal pattern matches that one address |
| Resolution.HeldClosed | internal/storage/memory.go:366-396 | what people hold contains what is granted to them directly or by pattern and everything holding passes on |
| Resolution.HeldIsLeast | internal/storage/memory.go:366-396 | and it is the least such set, on cyclic tuple lists too |
| Resolution.HeldIsFixpoint | internal/storage/postgres.go:565-622 | it solves the equation of the recursive query |
| Resolution.HeldMonotone | internal/storage/memory.go:366-396 | more live tuples never take a token away |
| Resolution.WorklistAdvances | internal/storage/memory.go:387-396 | working through any pairs keeps the worklist sound, and finds nothing or comes strictly closer to all pairs there are |
| Resolution.WorklistDone | internal/storage/memory.go:387-396 | a worklist with nothing left has found exactly what is held |
| Resolution.EntryIsFeeding | internal/storage/memory.go:808-820 | on stored tuples the filter of the downward walk and the rule of the upward one are one condition |
| Resolution.ReachedClosed | internal/storage/memory.go:324-356 | what a group reaches contains its entries and the entries of every group among them, for the relation asked |
| Resolution.ReachedIsLeast | internal/storage/memory.go:324-356 | and it is the least such set |
| Resolution.WalkAdvances | internal/storage/memory.go:333-354 | visiting a step keeps the walk complete behind it and inside what is reached |
| Resolution.WalkShrinks | internal/storage/memory.go:333-354 | every new step visited leaves strictly fewer, so the walk ends on cyclic graphs although its queue may repeat steps |
| Resolution.WalkDone | internal/storage/memory.go:333-354 | with nothing ahead the walk has found exactly what is reached |
| Resolution.Duality | internal/storage/memory.go:324-413 | a person holds a relation in a group iff the walk down from there meets a tuple naming them, patterns included |
| Resolution.ListedHolds | internal/storage/memory.go:324-413 | whoever a group lists as a member holds it, patterns present or not |
| Resolution.UnlistedThroughPattern | internal/storage/memory.go:324-413 | whoever holds a group without being listed does so through a live pattern below it |
| Resolution.ListedIffHolds | internal/storage/memory.go:324-413 | without pattern tuples, listed downwards and held upwards are the same |
| UserTokens.HoldsIffToken | internal/storage/memory.go:324-413 | a person holds a relation iff the token for it is among theirs; for member, the group's plain token |
| UserTokens.ListedHasToken | internal/storage/memory.go:324-413 | whoever a group's answer lists is answered the group's token, patterns present or not |
| UserTokens.ListedIffToken | internal/storage/memory.go:324-413 | without pattern tuples `user:e` is in the one answer iff the group's token is in the other |
| Rules.HeldByRule | internal/storage/memory.go:366-396 | a person has a relation in a group iff, through some number of groups, a row whose end is still to come says so of their address, of a pattern it fits, or of a group they are in under the relation the row names |
| Rules.TokensByRule | internal/storage/memory.go:398-412 | a token is answered iff it is the person's own, a group's they have something in, or that of a relation beyond membership they have |
| Rules.ReachedByRule | internal/storage/memory.go:324-356 | a group lists a row iff it is one of its rows in force for the relation asked, or one that a group among those lists for the relation named there |
| Rules.MembersByRule | internal/storage/memory.go:324-356 | a group counts the people and groups of the rows it lists, no patterns |
| Expiry.UpsertedKeys | internal/storage/memory.go:205-228 | of an entry written with an end the key counts before the end and not from then on; every other key as before |
| Expiry.EndsOnTime | internal/storage/memory.go:19-40 | from its end on an entry is as good as removed, before it as good as one without an end: for everyone's tokens, every group's members and the group graph |
| Traversals.ClimbOn | internal/storage/memory.go:387-396 | passing on the front of the queue keeps every pair listed once and queued until passed on, and the measure goes down |
| Traversals.ClimbEnds | internal/storage/memory.go:387-396 | an empty queue means everything held has been found |
| Traversals.WalkOn | internal/storage/memory.go:334-354 | visiting a new step keeps every token listed once, and the steps left go down |
| Traversals.WalkEnds | internal/storage/memory.go:334-354 | an empty queue means exactly what the group reaches has been listed |
| UserTokens.Render | internal/storage/memory.go:398-412 | the two passes print each group once, at its first pair, and then each relation beyond membership |
| UserTokens.RenderedElements | internal/storage/memory.go:398-412 | whatever order pairs were found in, the tokens are the same set: the person, one per group, one per relation beyond membership |
| UserTokens.RenderedNoDuplicates | internal/storage/memory.go:398-412 | no token is listed twice |
| MemoryStore.KeepInPlace | internal/storage/memory.go:192-199 | compacting into the array being read leaves exactly the kept tuples, in order |
| MemoryStore.DropInPlace | internal/storage/memory.go:246-271 | moving the tail down in the array drops exactly the one position |
| MemoryStore.Store.Compact | internal/storage/memory.go:192-199 | the store's tuples become the kept ones, in order, and nothing else changes |
| MemoryStore.Store.Append | internal/storage/memory.go:205-228 | one tuple more at the end, into the old array or a larger one |
| MemoryStore.Store.Find | internal/storage/memory.go:246-271 | the first tuple with the key, or the length |
| MemoryStore.Store.CreateGroup | internal/storage/memory.go:95-108 | a taken id is refused and nothing changes |
| MemoryStore.Store.ForgetManagers | internal/storage/memory.go:181-191 | the group's own managers go, and from every other list exactly the tokens naming it, in whatever order the map is walked |
| MemoryStore.Store.DeleteGroup | internal/storage/memory.go:181-201 | the group, every tuple mentioning it on either side and every manager token naming it go; the other tuples keep their order |
| MemoryStore.Store.AddManager | internal/storage/memory.go:708-719 | a token already there is not added again |
| MemoryStore.Store.AddMember | internal/storage/memory.go:205-228 | an existing entry gets the new expiry and keeps its place and source, a missing one is appended |
| MemoryStore.Store.RemoveMember | internal/storage/memory.go:230-244 | exactly the tuples with the key go |
| MemoryStore.Store.DeleteAt | internal/storage/memory.go:246-271 | one position goes and the tail moves down in place |
| MemoryStore.Store.MergeInto | internal/storage/memory.go:268-269 | the one entry gets the later expiry of the two, the other goes, the rest keeps its order |
| MemoryStore.Store.ChangeRelation | internal/storage/memory.go:246-271 | the entry moves in place, or merges into the one already there with the later expiry; a missing one is refused |
| MemoryStore.Store.OrphanGroups | internal/storage/memory.go:501-520 | the source's groups are left to no source, in whatever order the map is walked |
| MemoryStore.Store.DeleteSource | internal/storage/memory.go:501-520 | the source and its tuples go, its groups stay without a source |
| MemoryStore.Store.MoveGroups | internal/storage/memory.go:680-687 | exactly the groups of one owner pass to the other, and each is reported once, in whatever order the map is walked |
| MemoryStore.Store.MoveTuples | internal/storage/memory.go:688-693 | the owner of exactly those tuples is overwritten in place |
| MemoryStore.Store.MoveToSource | internal/storage/memory.go:671-696 | both together; the answer lists the groups moved, each once, sorted |
| MemoryStore.Store.UpdateSource | internal/storage/memory.go:484-499 | name and reserved names change, the type does not; an unknown source is refused |
| MemoryStore.Store.ImportRow | internal/storage/memory.go:593-634 | one row: skipped if its key came before, else its group is brought up to date and a missing tuple appended and counted |
| MemoryStore.Store.AddImport | internal/storage/memory.go:592-634 | all rows in order |
| MemoryStore.Store.IsMentioned | internal/storage/memory.go:650-665 | true iff some tuple has the group on either side |
| MemoryStore.Store.IsManaging | internal/storage/memory.go:650-665 | true iff some manager token names the group |
| MemoryStore.Store.DropAbandoned | internal/storage/memory.go:650-665 | the outcome of the clean-up does not depend on the order in which the map is walked while it is being deleted from |
| MemoryStore.Store.ImportAll | internal/storage/memory.go:585-634 | exactly the keys of the import the source has not stored are appended, once each, and the groups are those of the import together with the old ones |
| MemoryStore.Store.Prune | internal/storage/memory.go:636-665 | the source's other tuples go, and then exactly its abandoned groups |
| MemoryStore.Store.ReplaceTuples | internal/storage/memory.go:579-667 | the state becomes the replacement, and the two counts are what was appended and what compaction dropped |
| MemoryStore.Store.GroupEdges | internal/storage/memory.go:728-747 | every edge of the live graph once, sorted |
| MemoryStore.Store.SeedPairs | internal/storage/memory.go:366-386 | the pairs granted to the person directly or by a matching pattern, each once |
| MemoryStore.Store.PassedOn | internal/storage/memory.go:387-396 | the pairs one pair passes on that are not held yet, each once |
| MemoryStore.Store.HeldPairs | internal/storage/memory.go:366-396 | the worklist ends and lists exactly what the person holds, each pair once, on cyclic lists too |
| MemoryStore.Store.GetUserTokens | internal/storage/memory.go:366-413 | the tokens of exactly the held pairs, person first, memberships before relations; by the rule of `Rules`, a token is listed iff a row in force grants it, directly, by pattern or through groups |
| MemoryStore.Store.Visit | internal/storage/memory.go:333-354 | one step lists the entries' tokens not seen yet and leads to all groups among them |
| MemoryStore.Store.GetAllMembers | internal/storage/memory.go:324-356 | the walk ends and lists exactly the tokens of what the group reaches, each once, patterns left out; by the rule, iff it is the subject of a row in force that the group lists |
| RecursiveQueries.HeldRound | internal/storage/postgres.go:590-604 | joining only the previous round's rows misses nothing |
| RecursiveQueries.HeldQuery | internal/storage/postgres.go:573-604 | evaluated semi-naively the recursive query ends with exactly what the person holds |
| RecursiveQueries.UserTokensQuery | internal/storage/postgres.go:573-622 | its final select is the memory store's token set |
| RecursiveQueries.ExpandRound | internal/storage/postgres.go:532-546 | the same for the downward query, whose rows carry no group |
| RecursiveQueries.ClosedRowsReached | internal/storage/postgres.go:532-546 | rows closed under the join hold the row of everything reached, though several tuples share a row |
| RecursiveQueries.ExpandQuery | internal/storage/postgres.go:532-563 | it ends with the subjects of exactly what the group reaches |
| RecursiveQueries.MembersQuery | internal/storage/postgres.go:532-563 | with pattern rows filtered last its tokens are the memory store's set |
| Transitions.ImportRowsGroups | internal/storage/memory.go:592-634 | row by row the groups end as if all were imported at once, whatever rows repeat |
| Transitions.ImportRowsTuples | internal/storage/memory.go:592-634 | row by row exactly one tuple is appended per key the source had not, and that many are counted |
| EntryLaws.AddedEntry | internal/storage/memory.go:205-228 | adding a member leaves one entry at its key, with the expiry given and, if it was there, the source it had; every other entry stays |
| EntryLaws.AddThenRemove | internal/storage/memory.go:205-244 | removing the member just added takes the list back iff the entry was not there before |
| EntryLaws.ChangedEntry | internal/storage/memory.go:246-271 | nothing is left at the old relation, one entry with the longer life at the new one, every other entry stays, and no key is there twice |
| EntryLaws.ChangeBackIff | internal/storage/memory.go:246-271 | changing a relation there and back takes the list back iff nothing was merged on the way |
| EntryLaws.DroppedEntry | internal/storage/memory.go:246-271 | dropping one position drops the entry at its key and no other |
| ChangeLaws.KeysDecide | internal/storage/memory.go:324-413 | live keys alone decide tokens, members and the group graph; sources and repetitions do not matter |
| ChangeLaws.LaterExpiryLive | internal/storage/postgres.go:471-480 | the merged entry counts at an instant iff one of the two would have |
| ChangeLaws.ChangeKeepsEdges | internal/storage/memory.go:246-271 | changing a relation leaves the live group graph as it was, at every instant |
| ChangeLaws.ChangeKeepsMembers | internal/storage/memory.go:246-271 | and everyone holds the group itself iff they did before, at every instant, however they came to it |
| ChangeLaws.FirstArrival | internal/storage/memory.go:246-271 | a chain into the group can stop at its first entry, and up to there nothing changed |
| ChangeLaws.DeletedTokens | internal/storage/memory.go:181-201 | after a deletion people hold exactly what some chain around the group gives them |
| ChangeLaws.DeletedLeavesNothing | internal/storage/memory.go:181-201 | nobody holds a deleted group, it counts nobody, nothing names it: created again under its id it starts empty |
| ChangeLaws.DeleteAfterMove | internal/app.go:288-306 | after the move, deleting the source removes the source and nothing else |
| ChangeLaws.AdoptionKeepsTokens | internal/app.go:288-306 | move and deletion together change nobody's tokens, no group's members, no group and no number of tuples |
| ChangeLaws.EmptyImport | internal/storage/memory.go:579-667 | an empty import of a source owning nothing changes nothing |
| ChangeLaws.EmptyImportAfterMove | internal/storage/memory.go:579-696 | a late empty run of an adopted source takes nothing away |
| ReplaceLaws.AdditionsAreNewKeys | internal/storage/memory.go:592-634 | one tuple per key the import has and the source had not, no key twice |
| ReplaceLaws.ImportedSplits | internal/storage/memory.go:592-648 | the new list is what was kept, in order, followed by the additions |
| ReplaceLaws.ImportedKeys | internal/storage/memory.go:579-647 | afterwards the source has exactly the keys of the import |
| ReplaceLaws.OthersUntouched | internal/storage/memory.go:636-648 | other sources' tuples keep value and order |
| ReplaceLaws.KeptAsIs | internal/storage/memory.go:579-647 | a tuple the import still lists stays as it is, expiry included |
| ReplaceLaws.CountsAreDifferences | internal/storage/memory.go:579-647 | added is the size of the import minus the stored keys; removed is the size of the stored minus the import's keys iff no dropped key was stored twice |
| ReplaceLaws.RemovedTwice | internal/storage/memory.go:579-647 | a key stored twice is counted as two removals |
| ReplaceLaws.UniqueIffNotForeign | internal/storage/memory.go:579-647 | keys stay unique over all sources iff no other source stores a key of the import |
| ReplaceLaws.ImportedTwice | internal/storage/memory.go:579-647 | a second identical import appends and drops nothing |
| ReplaceLaws.ReplaceTwice | internal/storage/memory.go:579-667 | and leaves the whole state, groups and descriptions included, alone |
| ReplaceLaws.FilledGroupInUse | internal/storage/memory.go:650-665 | a group the import fills is never cleaned up |
| ReplaceLaws.DeletedExactly | internal/storage/memory.go:650-665 | a group goes iff it is the source's, nothing is in it, nothing names it, it has no manager and no manager token names it |
| ReplaceLaws.OwnersKept | internal/storage/memory.go:579-667 | groups keep their owner, new ones get the source, and every imported group is there |
| Graph.ClosedEncloses | internal/groupmgmt/service.go:471-490 | a set closed under going down holds everything below its members |
| Graph.WalkWithoutEdge | internal/groupmgmt/service.go:462-491 | a walk to an edge's parent has no use for the edge |
| Graph.NoCycleThroughNewEdge | internal/groupmgmt/service.go:462-491 | if the child does not contain the parent no cycle runs along the new edge, whatever cycles there were |
| Graph.AcyclicWithEdge | internal/groupmgmt/service.go:462-491 | the check is exact: an edge keeps the graph acyclic iff its child does not contain its parent |
| CycleCheck.Look | internal/groupmgmt/service.go:477-488 | going through one group's children finds the group asked about or queues exactly the unseen ones |
| CycleCheck.CheckNoCycle | internal/groupmgmt/service.go:462-491 | refuses iff the member group is the group or reaches it, on cyclic graphs too |
| Browse.BuildTree | internal/groupmgmt/browse.go:60-68 | the two maps are the graph read both ways, and list nothing twice if no edge is given twice |
| Browse.TopListing | internal/groupmgmt/browse.go:102-112 | lists exactly the source's groups no group of the same source holds, in the order of all groups and as often |
| Browse.ParentListing | internal/groupmgmt/browse.go:81-91 | lists exactly the known groups the parent holds, by id, none twice if the tree lists none twice; an unknown parent is refused |
| Browse.NoShorterWay | internal/groupmgmt/browse.go:124-157 | no way from a top is shorter than the distance of the group next in line |
| Browse.Explore | internal/groupmgmt/browse.go:138-154 | looking at a group keeps distances in order and meets all its parents of the source |
| Browse.LookAt | internal/groupmgmt/browse.go:138-154 | one turn keeps the search sound and either meets another ancestor or shortens the queue |
| Browse.WalkDown | internal/groupmgmt/browse.go:142-148 | following the successors from a met group ends at the group asked about, in as many steps as its distance |
| Browse.PathDown | internal/groupmgmt/browse.go:124-157 | the search ends on any graph with a shortest way down from a top of the source, or with the group alone if there is none |
| Browse.WayIsListed | internal/groupmgmt/browse.go:81-157 | a way from the top runs along edges; it starts in the top listing and each further group is in the listing of the one before iff all groups on it are known, as they are for a named source |
| TreeListing.WayListed | internal/groupmgmt/browse.go:81-157 | where groups are entered only in groups that exist, every way from a top starts in the source's top listing and each further group is in the listing of the one before, for unnamed sources too |
| TreeListing.WayListedInRuns | internal/groupmgmt/browse.go:46-157 | so in every state a run leads to, for the tree built from it at any instant |
| TreeListing.SignInKeepsParents | internal/keycloak/source.go:139-145 | a sign-in enters people, so groups stay entered in groups that exist |
| TreeListing.AcyclicWayListed | internal/groupmgmt/browse.go:81-157 | while the live groups form no cycle every group has a shortest such way |
| TreeListing.ShownWayByRows | internal/groupmgmt/browse.go:124-157 | the way shown is the shortest run of groups of one source, each entered in the one before by a row in force, that starts where no group of the source holds the first |
| Browse.UnknownOnWay | internal/groupmgmt/browse.go:51-58 | the list of groups is read before the edges: with an edge from a group that list lacks, the way to a group of no named source can start outside every listing |
| Browse.AcyclicWalk | internal/groupmgmt/browse.go:124-157 | in an acyclic graph no walk meets a group twice |
| Browse.AcyclicHasWay | internal/groupmgmt/browse.go:124-157 | while groups form no cycle every group hangs below a top of its source, so the way shown is never cut off |
| Service.GroupService.MayManage | internal/groupmgmt/service.go:302-316 | true iff admin or one of the caller's tokens is among the managers |
| Service.GroupService.LocalGroup | internal/groupmgmt/service.go:271-297 | the group, or the refusal the code gives, in its order: malformed, unknown, another source's, not the caller's |
| Service.GroupService.IsReserved | internal/groupmgmt/service.go:201-217 | true iff a glob of some other source matches the id |
| Service.GroupService.CheckManagerToken | internal/groupmgmt/service.go:638-661 | a person, or an existing group with a configured relation, in the stored spelling |
| Service.GroupService.CheckManagers | internal/groupmgmt/service.go:168-175 | all tokens, or the refusal of the first bad one |
| Service.RefusedStaysRefused | internal/groupmgmt/service.go:168-175 | tokens behind a refused one do not change the answer |
| Service.GroupService.CreateGroup | internal/groupmgmt/service.go:149-198 | refused steps change nothing; otherwise one local group with its managers |
| Service.GroupService.DeleteGroup | internal/groupmgmt/service.go:340-357 | only an admin, only a local group; otherwise nothing changes |
| Service.GroupService.AddManager | internal/groupmgmt/service.go:664-680 | a checked token is added once to a group the caller maintains |
| Service.GroupService.AddMember | internal/groupmgmt/service.go:419-460 | refused for every reason the code has, cycles over the live graph included, with no effect; otherwise the entry is the local source's |
| Service.GroupService.RemoveMember | internal/groupmgmt/service.go:494-514 | exactly the entry of that relation goes, from a group the caller maintains |
| Service.GroupService.ChangeRelation | internal/groupmgmt/service.go:517-546 | moved or merged in one step, or refused with no effect |
| Requests.AskedAsSpelled | internal/groupmgmt/service.go:783-797 | a request spelled with blanks and capitals asks for the group, relation and subject it spells, `x#member` being `x` |
| Requests.AddedRow | internal/groupmgmt/service.go:419-460 | accepted iff the caller may edit the group, the end is still to come and no chain of rows in force leads from the member group to the group; then the row asked for, in group, relation and subject, has the end asked for, and every other row stays in place |
| Requests.AddedHolds | internal/groupmgmt/service.go:419-460 | until that end whoever the subject is true of, by address, pattern or group, is answered the token of the relation asked for |
| Requests.AddedEnds | internal/groupmgmt/service.go:419-460 | from it on everything is as if the row had been removed |
| Requests.RemovedRow | internal/groupmgmt/service.go:494-514 | accepted iff the caller may edit the group; exactly the rows asked for go, the others keep their order |
| Requests.ChangedRow | internal/groupmgmt/service.go:517-546 | accepted iff the caller may edit the group and there is a row at the old relation, or the two are the same; not found iff there is none; the row is moved in place, or merged into the one at the new relation |
| Requests.ChangedRows | internal/groupmgmt/service.go:517-546 | where keys are unique no row is left at the old relation, exactly one is at the new, in force whenever one of the two would have been, and every other row stays |
| Requests.ChangedHolds | internal/groupmgmt/service.go:517-546 | whoever the subject is true of is answered the token of the new relation |
| GroupRequests.DeletedGroup | internal/groupmgmt/service.go:340-357 | accepted iff an admin asks for a local group; the group goes, exactly the rows about it or entering it, its managers and exactly its tokens from every other list, all else staying in order |
| GroupRequests.DeletedHolds | internal/storage/memory.go:181-201 | after the deletion people have exactly what a chain of rows around the group gave them |
| GroupRequests.AddedManager | internal/groupmgmt/service.go:664-680 | accepted iff the caller may edit the group and names a person or a configured relation of an existing group; its token is put on the group's list once |
| GroupRequests.ManagerMayEdit | internal/groupmgmt/service.go:302-316 | whoever holds that token may edit the group from then on |
| GroupRequests.RelationMayEdit | internal/groupmgmt/service.go:302-316 | and so may everyone who has the relation the group is maintained by, with the tokens they are answered |
| GroupRequests.CreatedGroup | internal/groupmgmt/service.go:149-198 | accepted iff an admin asks for a free id no other source has reserved, with managers who may be ones; the group is local, named, described and maintained by exactly those, and nothing else changes |
| GroupRequests.BeyondRights | internal/groupmgmt/service.go:271-316 | requests on members and managers leave every group, its managers and its rows alone that their caller may not edit, admins and groups of other sources included |
| GroupRequests.WithoutRights | internal/groupmgmt/service.go:271-316 | a caller who is no admin creates and deletes no group, and changes nothing of a group none of whose manager tokens they hold |
| Engine.SyncEngine.NormalizeIds | internal/sync/engine.go:258-268 | every row in place in its stored spelling |
| Engine.SyncEngine.CheckRelations | internal/sync/engine.go:139-155 | one unknown relation refuses the whole import; otherwise every row in place with its checked relations |
| Engine.SyncEngine.CheckOwnership | internal/sync/engine.go:178-211 | passes iff each group is new or the source's and no other source reserves its name |
| Engine.SyncEngine.Prepare | internal/sync/engine.go:89-93 | the rows as they will be stored, or nothing if one is refused |
| Engine.PreparedPointwise | internal/sync/engine.go:89-93 | preparing an import is preparing each row |
| Engine.RefusedRow | internal/sync/engine.go:139-155 | one refused row refuses all |
| Engine.SyncEngine.RunSync | internal/sync/engine.go:58-131 | an import refused for any reason changes nothing; otherwise it replaces what the source owns |
| Engine.SyncEngine.IsReservationTaken | internal/sync/engine.go:292-316 | true iff a glob matches an existing group of another owner |
| Engine.SyncEngine.CreateSource | internal/webserver/api_sync.go:85-130 | only file sources, and only with reservations nobody's group contradicts |
| Engine.SyncEngine.UpdateSource | internal/webserver/api_sync.go:190-234 | not the local source, and only with reservations no other owner's group contradicts |
| Engine.SyncEngine.DeleteSource | internal/webserver/api_sync.go:252-275 | its tuples go and its groups pass to the local source, none is left to nobody |
| Deliveries.StoredAsSaid | internal/sync/engine.go:139-155 | a valid row is stored as what it says, in group, subject with the member relation named, and relation, or refused iff a relation in it is not configured |
| Deliveries.SaysOne | internal/sync/engine.go:139-155 | a row says one thing at most |
| Deliveries.AcceptedIff | internal/sync/engine.go:58-131 | a sync is accepted iff its source is known and not the local one, every row is valid with configured relations, and every group filled is the source's or new and reserved by no other |
| Deliveries.SyncedKeys | internal/sync/engine.go:58-131 | afterwards the source stores exactly what the delivered rows say |
| Deliveries.SyncedRows | internal/storage/memory.go:579-648 | the rows that stay are everyone else's and the source's own that are still said, as they were and in order, followed by one without an end for each thing newly said |
| Deliveries.SyncedGroups | internal/storage/memory.go:597-665 | there is a group for every id filled and all others but the source's own that are empty then; new ones are named by their id, descriptions are those delivered |
| Deliveries.SyncedHolds | internal/sync/engine.go:58-131 | whoever a newly delivered row is true of is answered its relation's token, at any time |
| Deliveries.DeletedSource | internal/webserver/api_sync.go:252-275 | exactly the source's rows go, in order; its groups and those of no source pass to the local one, otherwise unchanged |
| Deliveries.AdoptedSource | internal/app.go:288-306 | a file source's groups and rows pass on, each in its place, and the source is gone |
| Deliveries.OrphansPassOn | internal/app.go:275-280 | groups and rows of no source pass to the local one, each in its place |
| Deliveries.RegisteredSource | internal/webserver/api_sync.go:85-130 | registered as given iff the id is free, it is a file source and its globs match no group |
| Deliveries.ChangedSource | internal/webserver/api_sync.go:190-234 | name and reserved names become those given iff the source is not local and its globs match nobody else's group |
| Engine.SyncEngine.AdoptIntoLocal | internal/app.go:275-308 | groups of no source, then each named source in turn, from a list read once; a refused name stops it |
| Engine.SyncEngine.AdoptNamed | internal/app.go:288-306 | unknown names pass, a source of another type is refused, a file source is moved and deleted |
| Engine.AdoptionEnded | internal/app.go:288-306 | names behind a refused one are not looked at |
| Engine.StartupKeepsTokens | internal/app.go:275-308 | startup adoption, the groups of no source first, whatever it names and wherever it stops, changes nobody's tokens, no group's members and no group |
| Engine.StartupKeepsInv | internal/app.go:275-308 | from a consistent store, groups of no source included, it leaves everything a serial run keeps: every group has a source then |
| Invariants.AddMemberKeeps | internal/groupmgmt/service.go:419-460 | an accepted member keeps one writer per group, unique keys, valid ids and reserved names |
| Invariants.RemoveMemberKeeps | internal/groupmgmt/service.go:494-514 | so does removing one |
| Invariants.ChangeRelationKeeps | internal/groupmgmt/service.go:517-546 | and changing a relation: the merge leaves no key twice |
| Invariants.CreateGroupKeeps | internal/groupmgmt/service.go:149-198 | a created group breaks no reservation and its managers name existing groups |
| Invariants.DeleteGroupKeeps | internal/groupmgmt/service.go:340-357 | no entry and no manager token is left naming a group that is gone |
| Invariants.AddManagerKeeps | internal/groupmgmt/service.go:664-680 | managers name existing groups |
| Invariants.GuardedNotForeign | internal/sync/engine.go:178-211 | behind the guard no other source stores a key of the import |
| Invariants.ReplacedKeeps | internal/storage/memory.go:579-667 | behind the guard an import keeps the invariant; the store alone would not |
| Invariants.RunSyncKeeps | internal/sync/engine.go:58-131 | every sync, accepted or refused, keeps the invariant |
| Invariants.DeleteSourceKeeps | internal/webserver/api_sync.go:252-275 | deleting a source keeps it |
| Invariants.AdoptedKeeps | internal/app.go:288-306 | move and deletion as one step keep it, reserved names included, which do not hold in between |
| Invariants.NextConsistent | internal/groupmgmt/service.go:149-546 | every step, accepted or refused, keeps all of it that does not ask for every group to have a source |
| Invariants.NextOwns | internal/webserver/api_sync.go:252-275 | every step, accepted or refused, leaves every group with a source that exists: a deleted source's groups pass on in the same step |
| Invariants.NextKeeps | internal/groupmgmt/service.go:149-546 | every step keeps the invariant, accepted or refused |
| Invariants.RunKeeps | internal/sync/engine.go:178-211 | over all serial runs, from any state with it: every tuple's group exists and has its source, no two tuples share a key, ids are valid, managers name existing groups, nobody else's group matches a source's reserved name, and every group belongs to a source that exists |
| Invariants.NewServiceKeeps | internal/app.go:245-268 | so over every run of a new service |
| Invariants.KeycloakServiceKeeps | internal/app.go:188-221 | and of one that has set up its Keycloak source, with what its mapping reserves |
| Invariants.GuardedImportUnique | internal/storage/postgres.go:825-968 | what the database's unique index demands of a guarded import holds in every state with the invariant |
| Invariants.InvWellFormed | internal/storage/memory.go:793-806 | stored tuples have the form resolution relies on |
| Invariants.TokensDistinct | internal/storage/memory.go:398-412 | in no state reachable from one with the invariant does anyone's token list name a token twice |
| Invariants.CountsInRuns | internal/storage/memory.go:579-667 | in every such state a sync reports exactly the sizes of the two differences |
| AcyclicRuns.TimeOnlyExpires | internal/storage/memory.go:728-747 | time alone only takes edges away |
| AcyclicRuns.UpsertGraph | internal/storage/memory.go:205-228 | adding an entry, or renewing one that was over, adds at most the edge it names |
| AcyclicRuns.AddMemberCycles | internal/groupmgmt/service.go:419-491 | an accepted member adds no cycle |
| AcyclicRuns.AddedEdgeOnNoCycle | internal/groupmgmt/service.go:419-491 | no cycle runs along the edge just added, even where imports made others |
| AcyclicRuns.StepCycles | internal/groupmgmt/service.go:419-546 | every step but an import leaves no cycle that was not there |
| AcyclicRuns.RunCycles | internal/groupmgmt/service.go:419-491 | over all runs without imports, time advancing in between, every cycle at the end was there at the start |
| AcyclicRuns.RunAcyclic | internal/groupmgmt/service.go:419-491 | from an empty store the live graph stays acyclic at every later instant |
| ImportCycles.ImportedLiveKeys | internal/storage/memory.go:579-647 | after an import the live keys are the other sources' and the import's, but for those the source has in entries that are over |
| ImportCycles.ImportAcyclicIff | internal/sync/engine.go:58-131 | an import leaves no cycle iff its rows and the other sources' live entries have none together |
| ImportCycles.AcyclicInTurn | internal/groupmgmt/service.go:462-491 | edges added one after the other leave no cycle iff there was none and each one's child does not contain its parent by then |
| ImportCycles.ImportAcyclicInTurn | internal/sync/engine.go:58-131 | an import leaves no cycle iff the others' live entries have none and each group row, in turn, passes the check AddMember makes |
| ImportCycles.ImportMakesCycle | internal/sync/engine.go:58-131 | for any configuration and any two ids, registering a source and one import put each of the source's groups inside the other |
| ImportCycles.OnCycleIff | internal/sync/engine.go:58-131 | adding edges puts a group on a cycle iff it was on one, or an added edge leads from below it to above it |
| ImportCycles.LocalOnCycleIff | internal/sync/engine.go:58-131 | after an accepted import of another source a local group is still local, and contains itself iff it did by the other sources' live entries or a row joins a group below it to one above it |
| ImportCycles.ImportTakesLocalGroupIn | internal/sync/engine.go:58-131 | for any configuration and two ids: after a run that leaves the graph acyclic, one accepted import puts a local group inside itself |
| Keycloak.Derive | internal/keycloak/mapping.go:155-220 | per group the values lead to exactly the roles mapped there, or plain membership if none, each row once; it depends only on the set of values |
| Keycloak.CollectRoles | internal/keycloak/mapping.go:155-201 | per group exactly the roles of the values whose scope leads there, the all-group's taken over all locations |
| Keycloak.HeldMore | internal/keycloak/mapping.go:159-201 | one value more adds its role to exactly its groups |
| Keycloak.EmitPairs | internal/keycloak/mapping.go:203-219 | one row per group and granted role, none twice |
| Keycloak.Unplaced | internal/keycloak/mapping.go:168-197 | noted are exactly the scopes and values no rule names |
| Claims.RowsByClaims | internal/keycloak/mapping.go:155-220 | a person's rows are, in every group a value leads to, one per role such a value maps to or plain membership if none does, and no other |
| Claims.ClaimGrants | internal/keycloak/mapping.go:155-201 | a value `v@s` with s leading to a group and v mapped to a role makes the role there and in the group across all locations |
| Keycloak.IdentitySource.SetSourceId | internal/keycloak/source.go:68-72 | from then on single-user reads write as that source |
| Keycloak.IdentitySource.Fetch | internal/keycloak/source.go:76-112 | the rows of every enabled user with a valid address; those are known afterwards and no lookup is remembered |
| Keycloak.IdentitySource.EnsureUser | internal/keycloak/source.go:116-153 | looks up exactly when the address is valid, unknown and due and a source is set, remembers the lookup whatever comes of it, and writes exactly what the mapping derives |
| Keycloak.WrittenUnderSource | internal/keycloak/source.go:116-153 | an entry not stored before is written as the source's, without expiry |
| Keycloak.EnsuredSurvives | internal/keycloak/source.go:116-153 | an import listing the same keys neither removes nor re-adds what was newly written |
| SignIn.DerivedRow | internal/keycloak/mapping.go:155-220 | every derived row is about the person, in a valid group, with a configured relation |
| SignIn.FetchedPrepared | internal/sync/engine.go:89-93 | the engine stores the rows of a full read as they are |
| SignIn.SignInSurvives | internal/keycloak/source.go:76-153 | after the next run over the same attributes, accepted or refused, every entry a sign-in newly wrote is there, and an accepted run does not count it as added |
| SignIn.WrittenOrigin | internal/keycloak/source.go:139-145 | every tuple was there under its source or is newly written under the Keycloak source |
| SignIn.DirectWritesIff | internal/keycloak/source.go:139-145 | all that is written keeps one writer per group iff each entry is there already or its group is the source's |
| SignIn.FirstSignInHasNoGroup | internal/keycloak/source.go:116-153 | on a new service with its Keycloak source set up and all invariants holding, the first sign-in writes an entry of a group that does not exist |
| SignInRuns.InvIff | internal/keycloak/source.go:139-145 | the invariant is what sign-ins leave of it together with one writer per group |
| SignInRuns.NextBut | internal/keycloak/source.go:116-153 | every step keeps the invariant but for the source's own tuples: all others have their group, no source stores a key twice, and everything else holds |
| SignInRuns.SignInBut | internal/keycloak/source.go:139-145 | and so does every sign-in |
| SignInRuns.TurnsKeepBut | internal/keycloak/source.go:116-153 | over all runs of steps and sign-ins |
| SignInRuns.RunBut | internal/sync/engine.go:58-131 | an accepted run of any source keeps it, one of the source itself brings the invariant back |
| SignInRuns.AcceptedRunRestores | internal/sync/engine.go:58-131 | whatever sign-ins wrote and whatever other steps came in between, the source's next accepted run leaves the whole invariant |
| Keycloak.LookupsSpaced | internal/keycloak/source.go:116-153 | over any sequence of sign-ins, full reads and changes of the source, two lookups of one address have a full read between them, or the first found nobody and the second came ten minutes later or more |
| Keycloak.LookupIff | internal/keycloak/source.go:116-153 | after a full read a person is looked up iff a source is set, the read did not list them, no lookup since found them, and the last was ten minutes ago |
| Postgres.LikePrefix | internal/storage/postgres.go:388-399 | without wildcards in it a LIKE prefix pattern finds what starts with the text |
| Postgres.LikeFindsNames | internal/storage/postgres.go:388-399 | every token naming the group is found |
| Postgres.LikeNamesExactly | internal/storage/postgres.go:388-399 | without an underscore in the id no other token is |
| Postgres.LikeFindsLookalike | internal/storage/postgres.go:388-399 | with one, a token of a different group is found |
| Postgres.DeleteGroupAgrees | internal/storage/postgres.go:388-399 | over all manager lists the service can store, both stores leave the same managers behind iff the id has no underscore or no relation beyond member is configured |
| Postgres.DeleteGroupSame | internal/storage/postgres.go:388-399 | without an underscore they do so for every manager list whatever |
| Postgres.DeleteGroupDiffers | internal/storage/postgres.go:388-399 | with one and a configured relation there is a list of valid groups and tokens where they do not |
| Postgres.UnderscoreTakesAnothersManagers | internal/storage/postgres.go:388-399 | deleting `a_b` takes the right to maintain `kurs` away from the lecturers of `axb` |
| Postgres.CleanUpKeepsMore | internal/storage/postgres.go:960-965 | the database's clean-up deletes no group the memory store keeps |
| Postgres.CleanUpAgreesIff | internal/storage/postgres.go:960-965 | the two agree on a group in every storable state iff its id has no underscore or no relation beyond member is configured |
| PostgresImport.DeleteInBatches | internal/storage/postgres.go:891-901 | deleting in chunks deletes exactly the rows listed |
| PostgresImport.ReplaceRows | internal/storage/postgres.go:868-957 | the table of tuples becomes the diff's outcome with conflicting inserts dropped, and the counts are the sizes of the differences |
| PostgresImport.StoresAgree | internal/storage/postgres.go:828-957 | where no other source stores a key of the import, both stores end with the same tuple rows, source and expiry included |
| PostgresImport.ImportGroupRows | internal/storage/postgres.go:903-948 | one insert of the missing groups and the updates one by one, in any order, make the groups the memory store makes |
| PostgresImport.ReplaceGroups | internal/storage/postgres.go:903-965 | the group rows of the transaction, clean-up included |
| PostgresImport.GroupsKept | internal/storage/postgres.go:903-965 | every group the memory store ends with is there with the same content; without an underscore in its id, no other |
| PostgresImport.OwnKeysAfter | internal/storage/postgres.go:828-957 | of the import the source gets exactly the keys no other source has |
| PostgresImport.ReplacedAgain | internal/storage/postgres.go:828-957 | a second run changes nothing |
| PostgresImport.SecondRunReports | internal/storage/postgres.go:828-957 | but reports every conflicting row as added once more |
| PostgresImport.ReportedAgain | internal/storage/postgres.go:828-957 | one row of another source is enough for that |
| NormalizeIds.NormalizeTuples | internal/storage/postgres.go:280-285 | the two statements leave, for each lowercased key, the row with the smallest uuid under it |
| NormalizeIds.UpdateRow | internal/storage/postgres.go:284-285 | given that no other row has the key it takes, one row changes and the index still holds |
| NormalizeIds.UpdateFits | internal/storage/postgres.go:284-285 | in whatever order the rows are rewritten |
| NormalizeIds.LowerRows | internal/storage/postgres.go:284-285 | the UPDATE goes through on what the DELETE kept |
| NormalizeIds.DeduplicatedKeepsFirst | internal/storage/postgres.go:280-283 | the DELETE keeps the first spelling of each key and only that |
| NormalizeIds.NormalizedKeys | internal/storage/postgres.go:280-285 | exactly one row per lowercased key, no key lost or invented |
| NormalizeIds.NormalizedRows | internal/storage/postgres.go:280-285 | a row stays iff none with a smaller uuid is the same but for capitals in group and subject id; those two are lowercased, every other column stays |
| NormalizeIds.NormalizedTwice | internal/storage/postgres.go:280-285 | a second start changes no tuple row |
| NormalizeIds.LowerImageTwice | internal/storage/postgres.go:286-289 | and no group |
| NormalizeIds.NormalizingAddsNone | internal/storage/postgres.go:280-285 | normalizing makes no entry count that did not |
| NormalizeIds.NormalizingEndsNoneIff | internal/storage/postgres.go:280-285 | it ends none iff the first spelling of every entry that counts still counts |
| NormalizeIds.LapsedSpellingWins | internal/storage/postgres.go:280-285 | an entry that is over takes another spelling without an end along, if its uuid is the smaller one |
| NormalizeIds.NormalizeGroups | internal/storage/postgres.go:286-289 | one group per lowercased id, and no renaming hits a taken id, in whatever order |
| NormalizeIds.SpellingKept | internal/storage/postgres.go:286-288 | of all spellings of an id one is kept |
| NormalizeIds.OneSpellingKept | internal/storage/postgres.go:286-288 | and no two |
| NormalizeIds.NewNameFree | internal/storage/postgres.go:286-289 | renaming a kept spelling meets no other row, renamed already or not |
| Query.ParseQuery | internal/catalog/query.go:35-83 | the loop with its pending flag reads the words as the word-by-word parse does |
| Query.AndWordsChangeNothing | internal/catalog/query.go:35-83 | UND, AND and & change nothing, wherever they stand |
| Query.WordsAreRequired | internal/catalog/query.go:35-83 | of words side by side each must match, and that is enough |
| Query.ReadingsAgreeIff | internal/catalog/query.go:35-83 | for words without a wildcard, required and alternative find the same on all fields iff all words are the same term |
| Query.RepeatedWordAgrees | internal/catalog/query.go:35-83 | wildcards or not, one word repeated is read alike either way |
| Query.OneWordIsNotEnough | internal/catalog/query.go:35-83 | whatever the fields, if some hold one of two words and none the other, the two side by side do not find them, though one matches |
| Query.WordNarrows | internal/catalog/query.go:35-83 | a word more, unless behind an ODER, never adds a match |
| Query.AlternativeWidens | internal/catalog/query.go:35-83 | a word behind an ODER never takes one away |
| Query.Score | internal/catalog/query.go:139-158 | -1 iff some clause is met by none of its alternatives, else how many terms match |
| Query.MatchCountPositive | internal/catalog/query.go:139-158 | a clause counts iff one of its alternatives matches |
| Query.TokenIsExact | internal/catalog/query.go:162-164 | a pasted `group:<id>` asks for exactly that id |
| Query.FoldKeeps | internal/catalog/query.go:166-171 | ids are already in the spelling they are compared in |
| SearchLaws.WildcardMatches | internal/catalog/query.go:108-137 | a wildcard term matches a field, or a word between separators in it, that is its text with every star filled in on one line |
| SearchLaws.StarFinds | internal/catalog/query.go:35-137 | `mann*` finds what has a field, or a word in one, that begins with `mann` |
| SearchLaws.QuotedPhrase | internal/catalog/query.go:35-95 | quoted, several words are one term |
| SearchLaws.OneAlternativeIsEnough | internal/catalog/query.go:35-83 | two words with ODER, OR or a bar between them find what holds one of them |
| SearchLaws.GroupColumns | internal/catalog/cache.go:112-116 | a word finds a group iff its id, name, description or source's name holds it |
| SearchLaws.RelationColumns | internal/catalog/cache.go:117-123 | and a relation of it by that, the relation's name, or the two together |
| SearchLaws.TotalCountIs | internal/catalog/query.go:139-158 | a hit's score is the number of terms that match |
| SearchLaws.MoreTermsFirst | internal/catalog/cache.go:125-130 | of two hits, neither the exact id, the one that matches more terms stands first |
| SearchLaws.BothBeforeOne | internal/catalog/cache.go:89-130 | of the hits of two alternatives one that matches both stands before one that matches one |
| Text.LeqByFirstDifference | internal/catalog/cache.go:39-50 | ids are ordered by the smaller character at the first difference, a beginning before what goes on |
| Sort.SortedIsSorted | internal/catalog/cache.go:125-130 | sorting permutes and orders |
| Sort.SortedStable | internal/catalog/cache.go:125-130 | elements that tie keep the order they came in |
| Catalog.GroupCache.Refresh | internal/catalog/cache.go:39-50 | the snapshot becomes the loaded groups, none lost, ordered by id |
| Catalog.GroupCache.Search | internal/catalog/cache.go:89-140 | the limited list of hits in order, or of all groups for a query that asks nothing |
| Catalog.HitsAreMatches | internal/catalog/cache.go:89-124 | the hits are exactly the groups and relations that meet every clause |
| Catalog.SearchAnswers | internal/catalog/cache.go:89-140 | a query without a limit lists exactly those, by score and then id |
| Catalog.LimitIsPrefix | internal/catalog/cache.go:131-140 | a limit cuts the same answer short |
| Catalog.ExactFirst | internal/catalog/cache.go:107-130 | once an exact id is among the hits, one stands first |
| Catalog.PastedTokenFirst | internal/catalog/cache.go:89-140 | a pasted token of a group, or of a relation someone holds in it, comes first, with any limit |
| Catalog.NotFoundByBoth | internal/catalog/cache.go:89-124 | a group with one of two words as id and name, and nothing else to be found by, is no hit of a search for both |
| Catalog.WordsAreNoAlternatives | internal/catalog/cache.go:89-124 | `mannheim karlsruhe` does not find the group `mannheim` |
| Catalog.ValidIdsFolded | internal/catalog/cache.go:112-119 | for valid group ids and relation names what PastedTokenFirst asks for holds |

## Left out

- Interleavings: each service call, sync or request is one serial step; the code checks ownership and cycles before a separate write and does not make the two atomic.
- Keycloak setup at startup (internal/app.go:188-243), whose reserved names come from configuration, is no step of a run, though runs may start behind it (`Invariants.KeycloakServiceKeeps`); EnsureUser's direct writes are no step of `Run` either: `SignIn.DirectWritesIff` says exactly what they keep, and `SignInRuns` mixes them with the steps.
- RemoveManager, UpdateGroup and every listing getter: they touch one field or read one.
- History, sync logs, creation and update times, creators, request limits and the mutexes.
- The clock: code that reads it per tuple is modelled with one `now` per operation.
- Byte-level CSV and LDIF reading, user-supplied regular expressions, and the size limits of imports: an import starts as a list of rows, which a sync checks for valid ids as the importers do.
- NormalizeReservedNames and ParseMapping: reserved globs and the mapping's tables are taken in their normalized form; `SignIn.ValidMapping` is what ParseMapping leaves.
- Descriptions of an import are taken with their ids normalized; the display name of an imported group, which is its id, is kept as such.
- Go's regexp engine: globs and id shapes have a direct recursive meaning, `.` not matching a line break.
- Lowercasing and trimming beyond ASCII, the German umlauts, and the Latin-1 spaces.
- Byte lengths of text outside ASCII: lengths are counted in characters; validated ids are ASCII.
- Kinds of subjects are a datatype of three values; the store's columns are strings.
- The order of the database's answers, which are sets here and ordered there by a final ORDER BY.
- The database's collation: the order that decides which spelling of a group id is kept is code-point order.
- The index the diff keeps from keys to uuids is the set of its keys; manager rows are their tokens.
- Browse with a query, its default listing and `page`: filters and slices of lists already proved.
- Browse.PathDown: asks for non-empty ids, which the code's end-of-path marker relies on.
- Keycloak.IdentitySource.EnsureUser: a write the store refuses midway is not modelled; the memory store refuses none.
- Keycloak.IdentitySource.Fetch: leaves out descriptions and the texts of the notes.
- Catalog.GroupCache.Refresh: a failed load, which keeps the old snapshot, and staleness between refreshes.
- HTTP routing, authentication, cross-origin checks, the web pages, the Keycloak client, scheduling and configuration.
