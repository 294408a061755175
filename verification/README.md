# The memory record, its reads and its entry points

A model of the parts of memorai that decide what is remembered, what is believed, and who gets to see it.
`dafny verify dfyconfig.toml` checks everything here.

## What is modelled

**The record.** `Resolver` is the claim resolver in its own form: claims are objects, the pending list of a
batch aliases the objects that are written later, stored claims are hydrated afresh for every lookup. Each
loop is proved equal to a function on values. `Store` is the graph store as a class: rows with payload and
promoted columns under ids, and a set of typed edges. `Ingestion` is the run over both: resolve, seal, write.
`RunEdges` says of every kind of edge exactly which are written.
`Ledger`, `Writing`, `Runs` and `Histories` carry an invariant through one comparison, one claim, one
candidate, one run and any history of runs and fulfilment changes. Its consequences are in `Beliefs`
(agreement of active claims, direction of edges, statuses, the latest claim wins), `Confluence` (arrival order
and batching do not matter) and `Choices` (exactly when they do), `Reruns` (idempotence; sensitive bodies stay
out), `LateArrivals`, `Reporting` and `Contradictions` (which reported pairs become edges). `AnyRuns` is what holds
of any run at all. `Tellings` are runs of one claim, `Cases` concrete histories made of them.

**The reads.** `Walks` gives bounded Cypher patterns their own meaning, trails that use no relationship twice,
and proves it equal to breadth-first layers. On it stand the supersession chain and neighbourhood hops of
`GraphReads`; `ChainBounds` is a reachable store that defeats the chain's cap, `EdgeLists` the order of edges in
an answer. A blind walk is followed by one permission check per object (`PermissionPass`) and an assembly:
`Neighbourhood` drops and counts what is denied, `ContextChains` and `ShiftHistories` withhold it but keep its
place. Each has a noninterference theorem: two walks that differ only in what a reader may not learn give the
same answer, text included. `ReadTexts` is what the two histories show of each object and say of it in their
texts; `ShiftReads` ties the shift read to reachable stores. `OwnerWalks` says which walks depend on what other
owners store.

**Text.** `Packing` is the greedy chunker, with an optimality theorem; `Transcripts` the printer, splitter and
chunker of chat transcripts; `ConversationTrees` the walk through an exported conversation.

**Entry.** `PendingAuths` and `OAuthFlow` are the redirect flow, as handlers and as a machine whose steps
interleave freely, `Logins` what a login comes to in its own values, `Verifiers` what of a PKCE verifier leaves the
gateway; `UrlEncoding` the percent encoder; `Permissions` and `Grants` the check every read makes.

`Basics`, `Schema`, `Statements` and `Text` hold what they share.

## How to read it

* A method that loops or changes state has an `ensures` that equates its result or new state with a function
  (`Confront` with `MeetAll`, `Write` with `CandidatesWritten`, `Pack` with `Greedy`); what the program
  promises is then proved about those functions.
* Where the store leaves the order of an answer open (`claims_about` has no ORDER BY), the order is a ghost
  result, and theorems hold for every one.
* `Tellable` is what the program sees to in an extracted run: ids with the prefix of their label, claims that are
  active and point at nothing, and subjects that name entities of the same candidate.
* `GoodRun` adds that claims are the run's owner's and, an assumption, that no claim id repeats within a batch.
  An id digests owner, event and statement, and nothing keeps an extractor from stating the same of an event twice.
  `Reachable` stores are those that histories of good runs lead to. `EdgesTellExactly` says what a repeated id does.
* Ids are opaque strings. Versions of a claim under one id may differ; `OneOutcome` says when that shows.
* Time, random ids, seal outcomes and signatures are parameters. A signed token is a value with its key;
  `Unforged` says that one that verifies under the gateway's secret was made there.
* Answer texts are lists of pieces, because rounding a span to tenths of a day is left to `Days`.

## Results that are not what one might expect

* A late arrival is reported as a supersession, but the newer claim does not list it, so no edge is written:
  `ReportedPairLinked` and `ReportedSupersessionsAreEdges` say exactly which pairs have one, `LateRun` shows one
  that has none, `LateHappens` where it occurs.
* `replace_payload` touches neither label nor owner column; a replacement with another label or owner leaves rows
  and payloads in disagreement (`ReplacementKeepsColumns`).
* A claim id digests owner, event and statement, so two versions of a claim can share one. Told in two runs, the
  first stays, and then the order of telling can matter (`TwoVersionsDecide`, `OrderMattersExactly`). Made in one run,
  the last is written over the first, and an edge can outlive the list that named it (`RepeatLosesItsList`).
* The sweep of pending authorizations shows only when the clock goes back, and `SweepShowsExactly` says when.
* A record stored in the clear and ingested again as sensitive loses its body if the seal succeeds; if it fails,
  the event is skipped and the old row stays (`SensitiveBodiesStayOut`).
* The docstring of `supersession_chain` promises one answer for head, tail and middle; the cap of 24 hops keeps
  that promise exactly for claims no two of which are further apart (`ChainsAgreeExactly`). That covers every component
  of 25 claims, and not every one of 26 (`ChainSameFromEveryMember`, `TwentySixAreTooMany`).
* Every node of a supersession, citation or shift walk is owner-constrained, of a neighbourhood walk the ends
  alone: another owner's row can shorten hops there (`ChainIgnoresOthers`, `HopsIgnoreOthers`, `HopsCrossOthers`).
* The packing fallback of `chunk_transcript` is reached only by a text of whitespace and never makes a chunk
  (`NoTurnsNoChunks`).
* In the shift read the relative order of withheld chain members shows (`ChainOrderShows`).
* The callback's provider-mismatch and unknown-provider errors cannot happen (`TakenOnce`).

## Model

| member | source | states |
|---|---|---|
| Permissions.DenialNamesFirstFailure | orchestrator/src/orchestrator/permissions.py:66-94 | an object is permitted exactly when nothing fails, and else denied for what fails first |
| Permissions.PermitsMonotone | shared/src/permissions.rs:93-140 | widening sources, kinds, window, sensitivity or expiry, or asking earlier, never turns an allow into a deny |
| Permissions.WidensExactly | orchestrator/src/orchestrator/permissions.py:66-94 | for a scope that can see something, seeing at least as much for at least as long is equivalent to being wider in every component |
| Grants.MintedGrantPermits | gateway/src/middleware/grant.rs:21-58 | a minted grant permits what the requested scope permits and nothing from the smaller of the two expiries on, even while the decoding leeway still accepts the token |
| Statements.OneWord | orchestrator/src/orchestrator/resolution/resolver.py:24-24 | text made of word characters alone is one word |
| Statements.WordsSplit | orchestrator/src/orchestrator/resolution/resolver.py:24-24 | any other character ends the word before it and belongs to none |
| Statements.OnlyWordsCount | orchestrator/src/orchestrator/resolution/resolver.py:27-38 | topic and tokens of a statement are those of its lower-cased words one space apart |
| Statements.CaseDoesNotCount | orchestrator/src/orchestrator/resolution/resolver.py:24-38 | statements that differ only in the case of letters have the same tokens in the same order |
| Statements.TopicIsFirstThree | orchestrator/src/orchestrator/resolution/resolver.py:27-38 | the tokens are the words that are no stop words, in their order, and the topic is the first three of them |
| Statements.RivalsMean | orchestrator/src/orchestrator/resolution/resolver.py:41-53 | two claims rival if and only if they are on one topic and differ in their tokens, in whether they owe anything, or in debtor, creditor or deadline; so a reassignment in the same words is one |
| Store.Neo4jStore.Upsert | orchestrator/src/orchestrator/storage/neo4j_store.py:123-154 | MERGE by id of any node: label, payload, owner, time and promoted columns are all set, nothing else changes |
| Store.Neo4jStore.Link | orchestrator/src/orchestrator/storage/neo4j_store.py:156-164 | adds the edge, or nothing when either end is missing |
| Store.Neo4jStore.SetClaimStatus | orchestrator/src/orchestrator/storage/neo4j_store.py:166-199 | changes the status in payload and column alone; an unknown status or an unreadable claim raises, a missing claim is a no-op |
| Store.Neo4jStore.SetFulfillment | orchestrator/src/orchestrator/storage/neo4j_store.py:201-219 | changes the lifecycle in payload and columns alone, to the state of that name, settled at the given time or, when reopened, at none; raises for an unknown state or a claim without a commitment, and then changes nothing |
| Store.StatusNames | orchestrator/src/orchestrator/storage/neo4j_store.py:166-199 | the four names a status may be set by |
| Store.Neo4jStore.ReplacePayload | orchestrator/src/orchestrator/storage/neo4j_store.py:221-232 | replaces payload and promoted columns of a stored row, and no other column |
| Store.Neo4jStore.ClaimsAbout | orchestrator/src/orchestrator/storage/neo4j_store.py:255-264 | each claim of the owner about one of the entities, once, in an order the store is free to choose |
| Runs.ReadFindsSharers | orchestrator/src/orchestrator/storage/neo4j_store.py:255-264 | while edges tell what claims say, it finds exactly the owner's claims that share a subject |
| Store.Neo4jStore.OpenCommitments | orchestrator/src/orchestrator/storage/neo4j_store.py:266-296 | the column filter, ordered by deadline then id |
| Store.OpenCommitmentsExact | orchestrator/src/orchestrator/storage/neo4j_store.py:266-296 | while columns agree with payloads, the column filter returns exactly the claims that are outstanding by their payload |
| Store.OpenCommitmentsOrdered | orchestrator/src/orchestrator/storage/neo4j_store.py:266-296 | they come earliest deadline first, undated last, ids breaking ties, none twice |
| Store.RowHolds | orchestrator/src/orchestrator/storage/neo4j_store.py:62-154 | what an upsert leaves of an entity, an event and a claim, column by column, every other row and all edges as they were |
| Store.ColumnsAlwaysPromoted | orchestrator/src/orchestrator/storage/neo4j_store.py:62-78 | after any sequence of writes whatever, raising ones included, the five promoted columns of every row are those of its payload |
| Store.ColumnsAlwaysAgree | orchestrator/src/orchestrator/storage/neo4j_store.py:62-78 | so do label, owner and time, provided replacements keep owner and label |
| Store.ReplacementKeepsColumns | orchestrator/src/orchestrator/storage/neo4j_store.py:221-232 | a replacement keeps rows true exactly when it keeps owner and label |
| Resolver.Compare | orchestrator/src/orchestrator/resolution/resolver.py:107-129 | one comparison in place: what becomes of the new claim, of the other claim, and of the two report lists, in each of the seven branches |
| Resolver.OneComparison | orchestrator/src/orchestrator/resolution/resolver.py:107-129 | one comparison over values, branch by branch: which tests skip it, and who supersedes, yields or contradicts |
| Resolver.Confront | orchestrator/src/orchestrator/resolution/resolver.py:107-129 | the inner loop over aliased claim objects equals folding the comparison over their values |
| Resolver.Hydrate | orchestrator/src/orchestrator/resolution/resolver.py:95-99 | stored claims become fresh objects for each lookup, so changes to them do not last |
| Resolver.Enlist | orchestrator/src/orchestrator/resolution/resolver.py:102-132 | a new claim meets stored claims, then pending ones, and is appended to the shared list and to the new claims |
| Resolver.ClaimResolver.ResolveOne | orchestrator/src/orchestrator/resolution/resolver.py:90-132 | one turn of the outer loop: a stored id is a duplicate, any other claim is confronted and admitted |
| Resolver.ClaimResolver.Resolve | orchestrator/src/orchestrator/resolution/resolver.py:81-134 | a candidate's claims, in order, against the store and the batch so far |
| Resolver.ClaimResolver.ResolveBatch | orchestrator/src/orchestrator/resolution/resolver.py:71-79 | all candidates over one shared pending list; each resolution's claims are a stretch of that list, and later candidates may still change them |
| Resolver.MeetAllKeepsSaid | orchestrator/src/orchestrator/resolution/resolver.py:107-129 | resolving changes a claim's status and its two lists and nothing it says |
| Ledger.MeetAllMeans | orchestrator/src/orchestrator/resolution/resolver.py:107-129 | after meeting any list: the superseded ids are exactly the active earlier rivals, the contradicted ones exactly the active rivals of its own time, and each final status has its reason |
| Ledger.CoexistingIsBeaten | orchestrator/src/orchestrator/resolution/resolver.py:95-120 | a claim that stays active supersedes every active rival of its owner that shares a subject, although stored claims are read as they stood before the batch |
| Ledger.MeetAllFits | orchestrator/src/orchestrator/resolution/resolver.py:90-132 | a resolved claim fits the ledger of everything recorded so far: targets present, earlier or level, rivals superseded |
| Ledger.YieldingEarly | orchestrator/src/orchestrator/graphs/ingestion.py:195-197 | statuses the resolver sets on pending claims come out the same when writing sets them again from the superseded lists |
| Ledger.AbsorbKeepsSound | orchestrator/src/orchestrator/graphs/ingestion.py:180-199 | recording a fitting claim keeps the ledger sound: supersessions earlier, contradictions level, statuses explained, active claims in agreement |
| Ledger.RecordedMeans | orchestrator/src/orchestrator/graphs/ingestion.py:180-199 | recording a batch adds its claims, loses none, and changes others only from active to superseded |
| Ledger.AdmissionKeepsSound | orchestrator/src/orchestrator/resolution/resolver.py:89-132 | admitting one more resolved claim to a batch keeps the ledger it will be recorded into sound |
| Ingestion.SensitiveIdsMeans | orchestrator/src/orchestrator/graphs/ingestion.py:128-130 | the sensitive ids are those of sensitive records, once each |
| Ingestion.Encrypt | orchestrator/src/orchestrator/graphs/ingestion.py:118-150 | exactly the sensitive ids whose seal succeeds get a ref, the others are recorded as errors once each |
| Ingestion.WriteEntities | orchestrator/src/orchestrator/graphs/ingestion.py:160-162 | upserts in order |
| Ingestion.WriteEvent | orchestrator/src/orchestrator/graphs/ingestion.py:164-178 | skips an unsealed sensitive event, else writes it with the ref in place of its body, its MENTIONS edges, and CITES edges except to itself |
| Ingestion.WriteEvents | orchestrator/src/orchestrator/graphs/ingestion.py:164-178 | the loop over events, and exactly which ids it reports written and skipped |
| Ingestion.SupersedeMany | orchestrator/src/orchestrator/graphs/ingestion.py:195-197 | for each superseded id, the edge and the status change |
| Ingestion.WriteClaim | orchestrator/src/orchestrator/graphs/ingestion.py:180-199 | the claim, its ABOUT, OWED_BY, OWED_TO, CITES, SUPERSEDES and CONTRADICTS edges, and the superseded statuses |
| Ingestion.WriteClaims | orchestrator/src/orchestrator/graphs/ingestion.py:180-199 | the loop over claims |
| Ingestion.Write | orchestrator/src/orchestrator/graphs/ingestion.py:152-202 | the whole write, and exactly which ids it reports written and skipped |
| Ingestion.EveryEventIsReported | orchestrator/src/orchestrator/graphs/ingestion.py:164-173 | every candidate event is reported, as written or as skipped, and only unsealed sensitive ones as skipped |
| Ingestion.EventIdsGrow | orchestrator/src/orchestrator/graphs/ingestion.py:164-173 | an event is told among the skipped exactly when it is sensitive and unsealed, else among the written, each in its turn |
| Ingestion.ReportGrows | orchestrator/src/orchestrator/graphs/ingestion.py:152-202 | what each candidate adds to the report of ids written and of events skipped, in order |
| Writing.EventsLeaveClaims | orchestrator/src/orchestrator/graphs/ingestion.py:164-178 | writing events touches no claim, and adds and takes away no edge that tells of claims |
| Writing.ClaimWrittenNodes | orchestrator/src/orchestrator/graphs/ingestion.py:180-199 | writing a claim whose targets are stored, under a new id or over an older version of it, records it in the ledger and marks its targets superseded, payload and column |
| Writing.ClaimWrittenEdges | orchestrator/src/orchestrator/graphs/ingestion.py:183-199 | no edge goes, every edge added leaves the claim, and the telling ones afterwards are exactly those before and those its subjects and lists name |
| RunEdges.EventWrittenExactly | orchestrator/src/orchestrator/graphs/ingestion.py:164-178 | exactly the edges an event's write leaves: MENTIONS of its entities and CITES of the other events it cites, where the other end is stored |
| RunEdges.ClaimWrittenExactly | orchestrator/src/orchestrator/graphs/ingestion.py:180-199 | exactly the edges a claim's write leaves: ABOUT its subjects, OWED_BY its debtor, OWED_TO its creditor if it has one, CITES, SUPERSEDES and CONTRADICTS, where the other end is stored |
| Runs.PendingPoints | orchestrator/src/orchestrator/resolution/resolver.py:71-134 | whatever the batch, claim ids repeated or not, a pending claim is new to the store and points only at other claims, stored or pending before it |
| Runs.PendingIsWritable | orchestrator/src/orchestrator/resolution/resolver.py:71-134 | if no claim id repeats, a resolved batch holds exactly the new claims, over a ledger that stays sound, whatever order the store answers in |
| Runs.ResolvedStaysGood | orchestrator/src/orchestrator/graphs/ingestion.py:100-104 | resolving keeps a candidate but for its claims, each of which is one of its own as resolving left it; so labels stay, and claims stay about the candidate's own entities |
| Runs.NextIsPlaceable | orchestrator/src/orchestrator/graphs/ingestion.py:195-199 | when a claim's turn to be written comes, claim ids repeated or not, every entity, SUPERSEDES and CONTRADICTS target it links to is stored |
| Runs.ClaimRecorded | orchestrator/src/orchestrator/graphs/ingestion.py:180-199 | writing the next pending claim leaves the store holding the ledger with it recorded, and the telling edges it names |
| Runs.ResolveNode | orchestrator/src/orchestrator/graphs/ingestion.py:94-116 | candidates come back with their claims as the whole batch left them, with all reported pairs in order |
| Runs.RunIngestion | orchestrator/src/orchestrator/graphs/ingestion.py:94-202 | a run over objects and a mutable store leaves exactly the state the specification gives, with its reports |
| Histories.AnyGoodRunCanBeMade | orchestrator/src/orchestrator/graphs/ingestion.py:94-202 | any good run can be made over any store that keeps the invariant |
| Histories.RunRecords | orchestrator/src/orchestrator/graphs/ingestion.py:94-202 | a run, claim ids repeated or not, leaves the ledger with the resolved batch recorded in order, and adds exactly the telling edges some resolved claim names |
| RunEdges.RunEdgesExactly | orchestrator/src/orchestrator/graphs/ingestion.py:152-202 | exactly the edges a whole run leaves, of every kind, each judged by what is stored when its turn comes; no run is excepted |
| Histories.EdgesTellExactly | orchestrator/src/orchestrator/graphs/ingestion.py:180-199 | afterwards ABOUT, SUPERSEDES and CONTRADICTS edges tell exactly what stored claims say if and only if, of each repeated claim id, the version written last names all that earlier ones named |
| Cases.RepeatLosesItsList | orchestrator/src/orchestrator/extraction/llm.py:200-219 | the input on which they do not: a later statement made twice in one record supersedes an earlier one; the edge stays, the list that said so is overwritten |
| Histories.RunKeepsInv | orchestrator/src/orchestrator/graphs/ingestion.py:94-202 | every run that repeats no claim id keeps the store's invariant and records exactly the resolved batch |
| Histories.FulfilKeepsInv | orchestrator/src/orchestrator/storage/neo4j_store.py:201-219 | so does every fulfilment change, which alters no record |
| Beliefs.HistoryKeepsInv | orchestrator/src/orchestrator/graphs/ingestion.py:94-202 | the invariant holds of every store that any history of such runs and of fulfilment changes leads to, and no node ever goes |
| Beliefs.ActiveClaimsAgree | orchestrator/src/orchestrator/resolution/resolver.py:89-132 | in every reachable store two active claims of one owner sharing a subject and a topic agree in tokens, and owe the same: debtor, creditor and deadline are equal, or neither owes |
| Beliefs.SupersedesPointsBack | orchestrator/src/orchestrator/resolution/resolver.py:117-120 | every SUPERSEDES edge joins rivals, points strictly back in time, and its target is superseded in payload and column |
| Beliefs.ContradictsIsLevel | orchestrator/src/orchestrator/resolution/resolver.py:121-124 | every CONTRADICTS edge joins rivals of one instant |
| Beliefs.PathsDescend | orchestrator/src/orchestrator/resolution/resolver.py:117-120 | time falls strictly along every path of SUPERSEDES edges |
| Beliefs.SupersedesAcyclic | orchestrator/src/orchestrator/resolution/resolver.py:117-120 | SUPERSEDES has no cycle |
| Beliefs.StatusesExplained | orchestrator/src/orchestrator/resolution/resolver.py:107-132 | a superseded claim has a recorded strictly later rival, a contradicted one names a level one with an edge, none is reconciled, and edges match the lists |
| Beliefs.LatestIsBelieved | orchestrator/src/orchestrator/resolution/resolver.py:71-134 | if a topic's claims share an entity and clash at no instant, the latest is active and every active one says what it says |
| AnyRuns.EveryClaimIsStored | orchestrator/src/orchestrator/resolution/resolver.py:89-132 | every claim a run is given is stored afterwards under its id, whatever the run |
| AnyRuns.AnyRunSaysOnly | orchestrator/src/orchestrator/graphs/ingestion.py:94-202 | any run with labelled ids keeps every row in order, loses no node, and says nothing that was neither stored nor told |
| AnyRuns.LedgerIsTold | orchestrator/src/orchestrator/graphs/ingestion.py:94-202 | after any history of labelled runs, claim ids repeated or not, the ledger holds a claim for everything told, and nothing untold |
| Confluence.LedgerIsChoice | orchestrator/src/orchestrator/resolution/resolver.py:90-93 | of every id told, the ledger holds exactly one of the versions told |
| Confluence.BelievedIsLatest | orchestrator/src/orchestrator/resolution/resolver.py:71-134 | what is believed on such a topic is exactly the content of the latest claim |
| Confluence.OrderDoesNotMatter | orchestrator/src/orchestrator/resolution/resolver.py:71-134 | two histories told the same claims, in any order and any split into runs, believe the same on such a topic if every choice of one version per id leaves the latest to say the same |
| Confluence.OneVersionOneOutcome | orchestrator/src/orchestrator/resolution/resolver.py:90-93 | which is so if every claim id of the topic is told in one version |
| Choices.AnyChoiceIsHeld | orchestrator/src/orchestrator/resolution/resolver.py:71-134 | for every choice of one version per id, some history told the same holds just that choice |
| Choices.OrderMattersExactly | orchestrator/src/orchestrator/resolution/resolver.py:71-134 | so order and batching do not matter on such a topic if and only if every choice of one version per id leaves the latest to say the same |
| Tellings.TwoVersionsDecide | orchestrator/src/orchestrator/resolution/resolver.py:90-93 | of two versions told under one id the first stays, so the two orders of telling them believe the same if and only if the versions agree in tokens and obligation |
| Cases.VersionsDiffer | orchestrator/src/orchestrator/resolution/resolver.py:90-93 | two concrete histories told the same that believe differently |
| Reruns.StoredAreDuplicates | orchestrator/src/orchestrator/resolution/resolver.py:90-93 | claims already stored are listed as duplicates, change nothing and report nothing |
| Reruns.KnownRunIsQuiet | orchestrator/src/orchestrator/resolution/resolver.py:90-93 | ingesting what the store has, whatever that is, reports nothing, adds no claim and no node, and changes no claim's row and no telling edge |
| Reruns.RerunIsQuiet | orchestrator/src/orchestrator/graphs/ingestion.py:152-202 | so does re-running any labelled run after anything that happened since, so statuses and fulfilments set in between survive |
| Reruns.SensitiveBodiesStayOut | orchestrator/src/orchestrator/graphs/ingestion.py:164-171 | whatever was extracted, whatever is stored and whichever seals failed: under an id no claim and no entity goes by, a run leaves an event some candidate has for it, just as extracted or, if its record is sensitive, with the ref of its successful seal in place of the body; where there is none to write, the row stays as it was |
| Reruns.EventIdsHoldSealed | orchestrator/src/orchestrator/graphs/ingestion.py:164-171 | while ids carry their labels, that holds of every event id |
| LateArrivals.ReportedPairLinked | orchestrator/src/orchestrator/resolution/resolver.py:125-129 | a reported pair becomes a SUPERSEDES edge if and only if its superseded claim was known before its superseding one was resolved |
| Reporting.ReportedSupersessionsAreEdges | orchestrator/src/orchestrator/resolution/resolver.py:115-129 | the SUPERSEDES edges a run adds are exactly the reported pairs whose superseded claim was known before its superseding one was resolved |
| LateArrivals.LateArrivalExample | orchestrator/src/orchestrator/resolution/resolver.py:125-129 | concrete claims whose pair is reported while neither lists the other |
| Tellings.LateRun | orchestrator/src/orchestrator/graphs/ingestion.py:94-202 | the run of such an older claim over a store that holds the newer one: the pair is its one report, and no edge is written |
| Cases.LateHappens | orchestrator/src/orchestrator/graphs/ingestion.py:94-202 | a reachable store to which that happens |
| Contradictions.ReportedContradictionsAreEdges | orchestrator/src/orchestrator/resolution/resolver.py:121-124 | the CONTRADICTS edges a run adds are exactly the contradictions it reports, in that direction |
| Walks.TrailsAreDistances | orchestrator/src/orchestrator/storage/neo4j_store.py:406-423 | patterns that repeat no relationship reach, at their shortest, exactly the breadth-first layers |
| Walks.BallFillsUp | orchestrator/src/orchestrator/storage/neo4j_store.py:345-357 | each layer adds a node until nothing more can be reached |
| Walks.MembersSeeTheSame | orchestrator/src/orchestrator/storage/neo4j_store.py:345-357 | every member of a component of at most k + 1 nodes reaches the same nodes in k hops |
| GraphReads.ChainIsBall | orchestrator/src/orchestrator/storage/neo4j_store.py:331-357 | the chain query returns the claims within the cap of the seed, all the owner's |
| GraphReads.ChainsAgreeExactly | orchestrator/src/orchestrator/storage/neo4j_store.py:331-357 | in a reachable store all members of a closed set of claims get one chain, in one order, if and only if no two of them are more than 24 hops apart |
| GraphReads.ChainSameFromEveryMember | orchestrator/src/orchestrator/storage/neo4j_store.py:331-357 | so in a component of at most 25 claims the walk returns the same claims in the same order from any member |
| ChainBounds.TwentySixAreTooMany | orchestrator/src/orchestrator/storage/neo4j_store.py:331-357 | some reachable store of 26 claims gives two claims, each in the other's chain, different chains |
| OwnerWalks.ChainIgnoresOthers | orchestrator/src/orchestrator/storage/neo4j_store.py:331-357 | what other owners store, and edges to or from it, leaves the chain as it is |
| OwnerWalks.HopsIgnoreOthers | orchestrator/src/orchestrator/storage/neo4j_store.py:407-426 | neighbourhood hops are the owner's own while no edge joins its rows to another's |
| OwnerWalks.HopsCrossOthers | orchestrator/src/orchestrator/storage/neo4j_store.py:407-426 | inner nodes of a walk are not owner-constrained: another owner's row between two of the owner's joins them at two hops |
| GraphReads.ChainIsTopological | orchestrator/src/orchestrator/storage/neo4j_store.py:345-357 | along a chain no claim supersedes a later one |
| GraphReads.MergeHops | orchestrator/src/orchestrator/graphs/neighbourhood.py:105-112 | stored seeds at 0, then what else was reached |
| GraphReads.MergedIsHopMap | orchestrator/src/orchestrator/graphs/neighbourhood.py:101-123 | that dict holds the stored seeds and the owner's nodes within the cap, each with its shortest pattern length |
| GraphReads.HopsAreExact | orchestrator/src/orchestrator/storage/neo4j_store.py:406-423 | hops are exact undirected distances from the nearest stored seed |
| GraphReads.HopsDifferByOne | orchestrator/src/orchestrator/storage/neo4j_store.py:425-447 | every walked edge joins nodes whose hops differ by at most one |
| GraphReads.RaisingTheCapKeepsHops | orchestrator/src/orchestrator/storage/neo4j_store.py:406-423 | raising the cap keeps every node and its hops |
| PermissionPass.CheckPermissions | orchestrator/src/orchestrator/graphs/history.py:116-133 | one verdict per walked object, and the denials in walk order |
| PermissionPass.PassMeans | orchestrator/src/orchestrator/graphs/history.py:116-133 | every walked object has its own verdict under its own id |
| PermissionPass.DenialsMean | orchestrator/src/orchestrator/graphs/history.py:116-133 | the denials are exactly the denied objects with their reasons |
| PermissionPass.VisiblePlusDenied | orchestrator/src/orchestrator/graphs/neighbourhood.py:164-164 | permitted and denied objects add up to the walked ones |
| PermissionPass.SamePass | orchestrator/src/orchestrator/graphs/history.py:116-133 | walks that differ only in denied payloads get the same verdicts and denials |
| EdgeLists.OrderedUnique | orchestrator/src/orchestrator/storage/neo4j_store.py:425-447 | an edge list in store order is determined by its edges |
| GraphReads.HopOfIsHopMap | orchestrator/src/orchestrator/storage/neo4j_store.py:406-423 | breadth-first distances form such a dict, for every store, seeds and cap |
| Neighbourhood.WalkExists | orchestrator/src/orchestrator/graphs/neighbourhood.py:101-123 | every store can make the walk, from any seeds and to any depth |
| Neighbourhood.PermittedMeans | orchestrator/src/orchestrator/graphs/neighbourhood.py:125-164 | what may be shown is exactly the walked objects the scope permits |
| Neighbourhood.AnswerAddsUp | orchestrator/src/orchestrator/graphs/neighbourhood.py:144-210 | shown nodes are exactly the permitted ones, nearest first at their exact hops, each as it is stored, field by field; shown edges exactly the store's edges between them; shown plus withheld is considered for nodes, and what was walked for edges |
| Neighbourhood.AnswerSays | orchestrator/src/orchestrator/graphs/neighbourhood.py:251-274 | the text gives the numbers of nodes and edges shown, the seeds, the sources, and how many objects are withheld if any are |
| Neighbourhood.RefusalSays | orchestrator/src/orchestrator/graphs/neighbourhood.py:170-188 | when nothing may be shown, the text gives the number of objects and the reasons, and all of them are counted as withheld |
| Neighbourhood.AbsenceSays | orchestrator/src/orchestrator/graphs/neighbourhood.py:154-162 | when nothing was found, the text says so of the seeds |
| Text.ReasonsByName | orchestrator/src/orchestrator/graphs/neighbourhood.py:152-152 | each reason is told by its own name exactly when some object was denied for it |
| Text.PrettyMeans | orchestrator/src/orchestrator/graphs/neighbourhood.py:175-175 | reasons are read out in turn with commas between, underscores as spaces |
| Neighbourhood.SourcesAndReasons | orchestrator/src/orchestrator/graphs/neighbourhood.py:152-206 | the sources named are those of the shown nodes, the reasons those of the denials, each once and in order |
| Neighbourhood.Noninterference | orchestrator/src/orchestrator/graphs/neighbourhood.py:125-210 | walks with the same permitted nodes, hops, edges among them, number and set of reasons of denials, and number of other edges give identical answers |
| ContextChains.BuildText | orchestrator/src/orchestrator/graphs/history.py:463-479 | the text is the head line and one line per view, withheld ones included |
| ContextChains.CitesWalkExists | orchestrator/src/orchestrator/storage/neo4j_store.py:370-404 | every store can make the walk, from any id and to any depth |
| ContextChains.NothingIsDropped | orchestrator/src/orchestrator/graphs/history.py:372-422 | an answered chain has one view for every walked object, nearest first, withheld exactly for the denied ones with their reasons, and keeps every walked edge |
| ContextChains.SourcesSeen | orchestrator/src/orchestrator/graphs/history.py:409-409 | the sources named are those of the objects seen, each once and in order |
| ReadTexts.ObjectShows | orchestrator/src/orchestrator/graphs/history.py:427-444 | a visible object is shown by its own fields, a denied one by id, hops and reason alone |
| ReadTexts.ObjectLineSays | orchestrator/src/orchestrator/graphs/history.py:475-478 | the line of a visible object: hops, where it came from, what it says, and its id |
| ReadTexts.WithheldObjectSays | orchestrator/src/orchestrator/graphs/history.py:472-474 | the line of a denied one: hops, reason and id |
| ReadTexts.ReachMeans | orchestrator/src/orchestrator/graphs/history.py:464-469 | the objects counted are those at some hops |
| ReadTexts.ContextTextIs | orchestrator/src/orchestrator/graphs/history.py:463-479 | the text is the head with that number and the sources, and a line for each object |
| ReadTexts.AloneTextIs | orchestrator/src/orchestrator/graphs/history.py:464-466 | the text when no object is at any hops |
| ReadTexts.SourcesAreSeen | orchestrator/src/orchestrator/graphs/history.py:409-409 | the sources named are exactly those of visible objects |
| ReadTexts.ContextAnswers | orchestrator/src/orchestrator/graphs/history.py:372-422 | the read answers exactly when some walked object is visible, else it refuses with number and reasons, or finds nothing |
| ContextChains.Noninterference | orchestrator/src/orchestrator/graphs/history.py:372-444 | with the verdicts fixed, payloads of denied objects never show in the result, text included |
| ContextChains.CitesEdgesExact | orchestrator/src/orchestrator/storage/neo4j_store.py:391-404 | the walked edges are exactly the owner's CITES edges with an end less than the cap away, so both their ends are walked |
| OwnerWalks.CitesIgnoreOthers | orchestrator/src/orchestrator/storage/neo4j_store.py:370-404 | the walks over citations are the same whatever other owners store |
| ContextChains.CitesHopsExact | orchestrator/src/orchestrator/storage/neo4j_store.py:370-404 | hops are exact distances over the owner's CITES edges, one apart at most across a walked edge |
| ShiftHistories.AddSteps | orchestrator/src/orchestrator/graphs/history.py:222-226 | a claim's steps, in the order of its list, skipping claims not walked |
| ShiftHistories.BuildSteps | orchestrator/src/orchestrator/graphs/history.py:220-226 | the nested loops build the step list of the specification |
| ShiftHistories.BuildText | orchestrator/src/orchestrator/graphs/history.py:315-340 | the text is a head line, one numbered line per step and one per conflict |
| ShiftHistories.StepsMean | orchestrator/src/orchestrator/graphs/history.py:220-226 | there is a step for every supersession between walked claims, and no other |
| ShiftHistories.StepsOldestFirst | orchestrator/src/orchestrator/graphs/history.py:221-226 | steps come in the order their superseding claims were asserted |
| ShiftHistories.ConflictsMean | orchestrator/src/orchestrator/graphs/history.py:228-235 | a conflict is told for every link between walked claims, and for no other |
| ShiftHistories.ReconciliationsMean | orchestrator/src/orchestrator/graphs/history.py:236-247 | a reconciliation is told for every chain claim that names one, with an unwalked target by its id alone |
| ShiftHistories.StepTells | orchestrator/src/orchestrator/graphs/history.py:266-287 | interval and new citations are told exactly when both ends are visible; new citations are of events the earlier claim does not cite |
| ShiftHistories.ChainAscends | orchestrator/src/orchestrator/graphs/history.py:214-218 | the chain lists exactly its claims, by time of assertion, then id |
| ReadTexts.AssertedOrder | orchestrator/src/orchestrator/graphs/history.py:214-221 | claims come by time of assertion, then id |
| ReadTexts.ClaimShows | orchestrator/src/orchestrator/graphs/history.py:290-300 | a visible claim is shown with its own statement, status, time, sources and whether it is a commitment, a denied one by id and reason alone |
| ReadTexts.TargetShows | orchestrator/src/orchestrator/graphs/history.py:236-247 | what a claim was reconciled into is shown if it was walked and else named; an empty id is none |
| ReadTexts.StepLineSays | orchestrator/src/orchestrator/graphs/history.py:315-335 | the line of a visible step says that the later claim superseded the earlier, after what time and on what new evidence |
| ReadTexts.EvidenceIs | orchestrator/src/orchestrator/graphs/history.py:327-329 | evidence is named by connector and external id, in the order of the new citations |
| ReadTexts.QuietTextIs | orchestrator/src/orchestrator/graphs/history.py:316-317 | the text when nothing was superseded or contradicted |
| ReadTexts.WithheldLineSays | orchestrator/src/orchestrator/graphs/history.py:319-325 | the line of any other step says which claim superseded which and nothing more |
| ReadTexts.ConflictLineSays | orchestrator/src/orchestrator/graphs/history.py:336-340 | the line of a conflict says which claim contradicts which |
| ReadTexts.ShiftTextIs | orchestrator/src/orchestrator/graphs/history.py:315-340 | the text is the head with the numbers of steps and conflicts, the steps under their numbers, and the conflicts |
| ReadTexts.ShiftAnswers | orchestrator/src/orchestrator/graphs/history.py:181-261 | the read answers exactly when some walked claim is visible, else it refuses with number and reasons, or finds nothing |
| ShiftHistories.Noninterference | orchestrator/src/orchestrator/graphs/history.py:181-300 | with the verdicts fixed, a denied claim shows only its id, reason, place in the order of assertion and the ids it supersedes or was reconciled into |
| ShiftHistories.ChainOrderShows | orchestrator/src/orchestrator/graphs/history.py:214-218 | reads with the same chain agree on the order of its members, so that order cannot be left open |
| ShiftReads.ShiftWalkExists | orchestrator/src/orchestrator/graphs/history.py:148-180 | every store can make the walk, from any id |
| ShiftReads.SameChainSameShift | orchestrator/src/orchestrator/graphs/history.py:148-261 | where two claims have one chain, the read gives the same chain, steps, conflicts, reconciliations and denials from both, and the same text but for the id it opens with |
| ShiftReads.SameShiftFromEveryMember | orchestrator/src/orchestrator/graphs/history.py:148-261 | so it does from any member of a component of at most 25 claims |
| OwnerWalks.ShiftIgnoresOthers | orchestrator/src/orchestrator/graphs/history.py:148-180 | nor does it change what the walk of a shift read hands on |
| ShiftReads.StepsAreSupersessions | orchestrator/src/orchestrator/graphs/history.py:220-287 | in every reachable store the steps are exactly the SUPERSEDES edges between walked claims, and every visible one has a positive interval |
| Packing.StripMeans | orchestrator/src/orchestrator/connectors/base.py:36-36 | stripping takes whitespace off both ends, and all of it |
| Packing.SpacesAre | orchestrator/src/orchestrator/connectors/base.py:36-36 | the 29 characters that count as whitespace |
| Packing.SplitBlankJoins | orchestrator/src/orchestrator/connectors/base.py:36-36 | joining the split pieces with blank lines gives the text back |
| Packing.UnitsMean | orchestrator/src/orchestrator/connectors/base.py:36-36 | a unit is a stripped piece without a blank line in it |
| Packing.StrippedSnoc | orchestrator/src/orchestrator/connectors/base.py:36-36 | pieces become units in turn, those of whitespace dropped |
| Packing.BlankTextHasNoUnits | orchestrator/src/orchestrator/connectors/base.py:36-36 | the fallback unit is used exactly for a text of whitespace, and is empty |
| Packing.Pack | orchestrator/src/orchestrator/connectors/base.py:37-47 | the loop over units builds the greedy blocks, joined |
| Packing.Chunk | orchestrator/src/orchestrator/connectors/base.py:35-47 | splitting, then packing |
| Packing.GreedyPartitions | orchestrator/src/orchestrator/connectors/base.py:37-47 | the chunks are consecutive stretches of the units, each within the budget or a single unit |
| Packing.PackingKeeps | orchestrator/src/orchestrator/connectors/base.py:37-47 | joining the chunks gives back the joined units, and a chunk over the budget is a single unit |
| Packing.GreedyIsOptimal | orchestrator/src/orchestrator/connectors/base.py:37-47 | no cut of the units into consecutive chunks within the budget, or of single units, makes fewer chunks |
| Transcripts.SpeakersAre | orchestrator/src/orchestrator/connectors/chatgpt.py:283-284 | a turn of the user is rendered as "user: " and its text, one of the assistant as "assistant: " and its text |
| Transcripts.SplitJoins | orchestrator/src/orchestrator/connectors/chatgpt.py:280-298 | for every text, joining the pieces with blank lines gives the text back |
| Transcripts.PiecesHaveNoMarker | orchestrator/src/orchestrator/connectors/chatgpt.py:280-298 | no piece has a role marker left in it |
| Transcripts.SplitUndoesRender | orchestrator/src/orchestrator/connectors/chatgpt.py:280-298 | for a non-empty list of turns, splitting gives back the rendered turns if and only if no turn's text has a blank line followed by a role prefix |
| Transcripts.ChunkTurns | orchestrator/src/orchestrator/connectors/chatgpt.py:302-320 | the loop over turns builds the greedy blocks, with an oversized turn cut at its paragraphs |
| Transcripts.ChunkText | orchestrator/src/orchestrator/connectors/chatgpt.py:290-320 | splitting, dropping blank turns, chunking, and the fallback |
| Transcripts.KeptSnoc | orchestrator/src/orchestrator/connectors/chatgpt.py:298-298 | turns are kept in turn, but for those of whitespace |
| Transcripts.NoTurnsNoChunks | orchestrator/src/orchestrator/connectors/chatgpt.py:298-300 | the fallback is reached exactly for a text of whitespace, and makes no chunk |
| Transcripts.ChunkBudget | orchestrator/src/orchestrator/connectors/chatgpt.py:290-320 | a chunk is turns packed within the budget or comes from one oversized turn, and exceeds the budget only as one paragraph of it |
| Transcripts.ChunkingKeeps | orchestrator/src/orchestrator/connectors/chatgpt.py:290-320 | joined, the chunks are the joined turns, an oversized one replaced by its paragraphs |
| Transcripts.TranscriptChunks | orchestrator/src/orchestrator/connectors/chatgpt.py:283-320 | a rendered transcript whose turns fit comes back whole, in as few chunks as any cut between turns makes |
| ConversationTrees.StartMeans | orchestrator/src/orchestrator/connectors/chatgpt.py:130-151 | the walk begins at the first root in the mapping's order, or at its first node if there is no root, unless there are no nodes |
| ConversationTrees.WalkLinear | orchestrator/src/orchestrator/connectors/chatgpt.py:139-163 | ends for every mapping, cyclic or not, with the messages in order of the entries along a path that begins at the first root, goes from each entry to the last of its children, has no node twice, and stops only where that ends |
| ConversationTrees.OneBranch | orchestrator/src/orchestrator/connectors/chatgpt.py:151-162 | that branch is the only one of its kind |
| ConversationTrees.TreeBranchEndsAtLeaf | orchestrator/src/orchestrator/connectors/chatgpt.py:151-162 | in a tree it ends at a leaf |
| PendingAuths.PendingAuthStore.Insert | gateway/src/middleware/oauth_state.rs:52-57 | sweeps expired entries, then inserts |
| PendingAuths.PendingAuthStore.Take | gateway/src/middleware/oauth_state.rs:61-68 | removes the entry whatever it answers, and answers only an unexpired one |
| PendingAuths.SweepShowsExactly | gateway/src/middleware/oauth_state.rs:51-68 | over every sequence of calls and whatever the clock reads, the answers are those of a map that never sweeps if and only if no take reads a time before the expiry of the entry it asks for when an insert since has read that expiry as passed |
| PendingAuths.SweepIsUnobservable | gateway/src/middleware/oauth_state.rs:51-68 | so while the clock does not go back, every sequence of calls gets the answers of a map that never sweeps |
| PendingAuths.SweepShowsWhenTheClockGoesBack | gateway/src/middleware/oauth_state.rs:55-66 | one step back of the clock is enough to tell them apart |
| OAuthFlow.Gateway.Authorize | gateway/src/routes/auth.rs:37-96 | the whole answer, consent URL included, and the pending entry, from its three clock readings; or an error that stores nothing |
| OAuthFlow.Gateway.Callback | gateway/src/routes/auth.rs:141-167 | validate, consume, compare, and only then the exchange request; each error in its order, and the entry gone once the state has validated |
| Logins.ProvidersAre | shared/src/oauth.rs:9-58 | the two providers by name, with their consent endpoints and scopes |
| Logins.ParametersAre | gateway/src/routes/auth.rs:74-88 | every consent parameter with its value, in order |
| Logins.ParametersInBytes | gateway/src/routes/auth.rs:249-255 | each key goes out with its own value, in UTF-8 |
| Logins.ScopeParameterIs | shared/src/oauth.rs:33-58 | the scope parameter is the provider's scopes one space apart |
| Logins.AnswerIs | gateway/src/routes/auth.rs:90-96 | provider, state, scopes, expiry in milliseconds and URL of the answer |
| Logins.StateLasts | gateway/src/middleware/oauth_state.rs:78-104 | a state is accepted for exactly the time to live from its issue, and tells its flow |
| Logins.OnlyStatesPass | gateway/src/middleware/oauth_state.rs:107-129 | nothing is accepted but an unexpired state under the secret |
| Logins.RedeemsExactly | gateway/src/routes/auth.rs:146-167 | a callback sends on exactly if something was kept for the provider the state names, and just what was kept |
| Logins.LoginExactly | gateway/src/routes/auth.rs:37-167 | authorize and callback with nothing between them succeed if and only if the state is validated within the time to live of its issue and the entry taken before that of its stamp is over; the code goes on with the provider, redirect URI and verifier of that authorize |
| Logins.LogIn | gateway/src/routes/auth.rs:37-167 | the same of the gateway's own methods |
| OAuthFlow.ConsentUrlTells | gateway/src/routes/auth.rs:74-92 | cut at its first question mark, the consent URL gives back the provider's endpoint and exactly its parameters in order |
| OAuthFlow.AuthorizeIsItsSteps | gateway/src/routes/auth.rs:57-72 | an uninterrupted authorize is a run of its three steps at its clock readings, with the token, expiry and pending entry the handler makes |
| OAuthFlow.CallbackIsItsSteps | gateway/src/routes/auth.rs:145-167 | an uninterrupted callback is a run of its two steps: what the handler answers is what they send, what it leaves pending is what they leave |
| Verifiers.VerifiersStayHere | gateway/src/routes/auth.rs:33-36 | over every run, had other verifiers with the same challenges been drawn, every authorize would have answered the same and every callback fared alike, and only the verifiers in flows, pending entries and exchanges would differ |
| OAuthFlow.StepKeepsInv | gateway/src/routes/auth.rs:57-72 | every step of every authorize and callback, and any clock reading, keeps the protocol's invariant |
| OAuthFlow.OneExchangePerState | gateway/src/routes/auth.rs:145-167 | over every interleaving a state id leads to at most one exchange, with the provider, redirect URI and verifier of the authorize that minted it, strictly before its pending expiry |
| OAuthFlow.TakenOnce | gateway/src/routes/auth.rs:146-157 | a validated callback is sent on exactly when its flow is pending and unexpired, meets no other error than that of an unknown or used state, and leaves nothing for another |
| OAuthFlow.PendingFlowIsRedeemed | gateway/src/routes/auth.rs:145-167 | the token of a pending flow, presented in time, is sent on |
| UrlEncoding.PercentEncode | gateway/src/routes/auth.rs:257-268 | the loop over bytes builds the encoding |
| UrlEncoding.UnreservedAre | gateway/src/routes/auth.rs:259-266 | the 66 characters that stand for themselves |
| UrlEncoding.Utf8CharMeans | gateway/src/routes/auth.rs:257-268 | the bytes encoded are those of RFC 3629, section 3: the character is made up of their bits, and no shorter form would hold it |
| UrlEncoding.DecodeUndoesEncode | gateway/src/routes/auth.rs:257-268 | decoding by section 2.1 of RFC 3986 gives back every string of bytes |
| UrlEncoding.EncodedExactly | gateway/src/routes/auth.rs:257-268 | the outputs are exactly the strings of unreserved characters (section 2.3) and upper-case triplets of other octets |
| UrlEncoding.EncodeUndoesDecode | gateway/src/routes/auth.rs:257-268 | on those strings encoding undoes decoding |
| UrlEncoding.ParseUndoesUrlEncode | gateway/src/routes/auth.rs:249-255 | splitting on `&` and then on the first `=` recovers the exact list of parameters, but for the empty list |

## Left out

- Neo4j, LangGraph, Redis, HTTP and Postgres mechanics: a Cypher read is modelled by its meaning, a graph of nodes by composing them.
- Embeddings, vector search and ranking: no claim of the record depends on them.
- Concurrent ingestion jobs of one owner: runs are sequential.
- Cryptography, attestation and session adoption: sealing succeeds or fails for an external id, and a ref is all it leaves; error messages of failed seals are represented by that id.
- Extraction: a run starts from records and candidates; only `external_id` and `sensitive` of a record are kept.
- Ingestion.Encrypt: without sensitive records the program's node returns no list of errors at all; here it is an empty one.
- Beliefs.HistoryKeepsInv: assumes that no run repeats a claim id, which nothing in the program ensures, and so do the results on `Reachable` stores; what a repeat does to single statuses is not characterised, only what it does to edges.
- Histories.RunKeepsInv: the same assumption.
- Confluence.OrderDoesNotMatter: the same assumption, within each run; an id told again in another run may be told in another version.
- Runs.PendingIsWritable: the same assumption; `PendingPoints` is what holds without it.
- Beliefs.SupersedesPointsBack: the same assumption, through `Reachable`.
- Beliefs.StatusesExplained: the same assumption, through `Reachable`.
- ShiftReads.StepsAreSupersessions: the same assumption, through `Reachable`.
- Subjects that name entities of another candidate: the extractors resolve subjects among the candidate's own.
- CITES edges under re-running: an event citing a later event of its batch gains that edge only on the next run, so only nodes and claims are claimed to be unchanged.
- Reads with a negative hop count, and a store whose rows are changed by other programs.
- `Statements`: lower-casing is modelled for the characters that can make an ASCII word character, which is all tokenizing looks at.
- `Packing` and `Transcripts`: a budget is an integer and lengths count code points; lone surrogates, which Python strings admit, are not characters here.
- `Grants`, `PendingAuths` and `OAuthFlow`: u64 arithmetic is assumed not to overflow, and random ids not to repeat.
- ShiftHistories.BuildText: rounding a span to tenths of a day is left to `Days`, a piece of the text.
- Store.Neo4jStore.Upsert: uniqueness is per label in the program's schema, so two nodes of different labels may share an id there; the model keeps one row per id.
- OAuthFlow.Gateway.Authorize: the text of a signed token and the S256 challenge are functions of the configuration, not computed.
- OAuthFlow.Gateway.Callback: ends with the request it sends to the enclave; storing the token and issuing a session are left out.
- Export parsing other than the tree walk, record building and file lookup in `chatgpt.py`; trust tiers, owner ids, configuration and health routes: true but easy.
