# Stablenode: a verified model

A Dafny model of the three places where the stablenode backend is hardest to get right, with proofs about it.

**Query builders and eager loading** (`RowSet`, `Schema`, `EagerLoad`, `EagerLoadProofs`, `LoadedValues`, `EdgeLaws`, `BuilderReuse`, `NestedLimits`, `QueryBuilder`, `InstitutionScan`).
A builder collects predicates, an order, a limit, a projection and nested edge queries. Running it fetches the parents, runs one batched query per requested edge and deals the children out through a foreign-key index.
The builders are classes that the code mutates while it runs them. Every method is proved against functions over the builder's contents (`Run` for the result, `Touch` for what the run leaves behind), and those functions are proved equal to a reference in which every parent asks for its own children (`LazyNodes`).
The database is a finite sequence of rows per table, SQL is filter, stable sort and window.

**Creation and hooks** (`HookChain`, `HookRegistry`, `BulkCreate`).
Hook lists are Go slices over shared arrays, and `append` may write into spare capacity.
Bulk `Save` is a recursive chain of closures over shared vectors of mutations, nodes and specs. It is proved against a flat account (`BulkOutcome`): admit every builder in order, write one batch, then let the hooks that act afterwards have their say.

**KYB, order status, amounts and encodings** (`ActionIds`, `KybSubmission`, `KybWorkflow`, `KybTrap`, `KybOutcomes`, `OrderStatus`, `TransferAmount`, `SignedMessage`).
Submissions and reviews run concurrently. A run is any sequence of events, each event being one lock acquisition, one database access, one transaction or the arrival of a request, so a theorem about all event sequences is one about all interleavings. `Restart` is an event too: it empties the marks.

What the model brought to light about the code:

- A nested limit or offset applies once to the whole batch, not per parent, on edges of either kind (`NestedLimits.NestedLimitBreaksEagerLoading`). A limit of zero is no limit.
- A builder that is run, given another selection of parents and run again keeps the predicates of the first run at every level. A parent then gets its edge only if the first run asked for it too (`BuilderReuse.ReusedBuilderEdge`), so paging with one builder loses the children of the second page (`BuilderReuse.SecondPageLosesChildren`).
- `Exist` leaves the id in the projection, so a second `Exist` on the same builder fails (`QueryBuilders.ExistTwice`).
- Bulk creation checks the builder's own mutation before it takes over the one a hook passed on, single creation after. A hook that passes on another mutation gets a row past the checks in bulk only (`BulkCreate.ReplacementEscapesCheck`), and `BulkCreate.RowsCheckedByKind` says for exactly which kinds of hooks that can happen.
- A hook that fails after calling the next mutator makes a save return an error although its row was written; the mutation is done then, unless a hook of a later builder failed (`BulkCreate.BulkSave.Save`). `BulkCreate.ErrorsWriteNothingByKind` says for exactly which kinds of hooks an error means that nothing was written.
- The mark of a reviewed KYB profile is never cleared and a resubmission reuses the profile, so a comment in the code that an administrator will approve the resubmission does not hold within one process (`KybTrap.ResubmissionStaysPending`, and `KybTrap.RejectedThenTrapped` for the whole way from a rejection).
- A KYB submission whose Slack notification fails is answered with an error although it was committed (`KybSubmission.KybController.HandleKYBSubmission`).
- A review whose payload cannot be read has already set its mark, so the profile cannot be decided any more in that process (`KybOutcomes.UnreadableLeavesMark`).
- Two reviews whose check-to-mark windows overlap can both decide, and leave a rejected user without a rejection comment (`KybTrap.OverlappingReviewsBothDecide`).
- Amounts of tokens with more than 16 decimals lose their smallest units (`TransferAmount.ScaleExact`, `TransferAmount.DustIsDropped`).

Check the project with `dafny verify dfyconfig.toml`.

## Model

| member | source | states |
|---|---|---|
| `RowSet.NarrowSelect` | ent/fiatcurrency_query.go:679-717 | narrowing the rows of a query after it was sorted is the same as having asked for fewer rows: the fact that lets one batch stand for many queries |
| `RowSet.SelectMembers` | ent/institution_query.go:455-493 | a row of the result is a row of the table that satisfies every predicate |
| `RowSet.FilterSort` | ent/institution_query.go:485-491 | filtering commutes with the stable sort of the order terms |
| `RowSet.WhereMeans` | ent/fiatcurrency_query.go:696-702 | every row returned meets each predicate in its own terms: an id among the given ones, a key among the given ones, a true test; without a window all such rows are returned |
| `RowSet.LeqMeans` | ent/fiatcurrency_query.go:709-715 | the recursive order is the lexicographic one: smaller on the first order term that differs, or equal on all |
| `RowSet.OrderMeans` | ent/fiatcurrency_query.go:709-715 | in the result of any query no later row comes before an earlier one |
| `RowSet.StableMeans` | ent/fiatcurrency_query.go:709-715 | rows with the same keys stay in table order |
| `RowSet.WindowMeans` | ent/fiatcurrency_query.go:703-708 | limit and offset return a contiguous part that starts at the offset and ends with the rows, the limit or, for an offset alone, the largest 32-bit number |
| `Schemas.StablenodeSchemaValid` | ent/migrate/schema.go:102-125 | in the schema of currencies, institutions, API keys and their neighbours every edge has its foreign-key column on the side its kind says |
| `QueryBuilders.QueryBuilder.Where` | ent/fiatcurrency_query.go:41-44 | appends the predicates; nothing else of the builder changes |
| `QueryBuilders.QueryBuilder.Limit` | ent/fiatcurrency_query.go:47-50 | writes the limit into the builder itself |
| `QueryBuilders.QueryBuilder.Offset` | ent/fiatcurrency_query.go:53-56 | writes the offset into the builder itself |
| `QueryBuilders.QueryBuilder.Order` | ent/fiatcurrency_query.go:66-69 | appends the order terms |
| `QueryBuilders.QueryBuilder.Select` | ent/fiatcurrency_query.go:440-446 | appends to the projection, repeated and unknown columns included |
| `QueryBuilders.QueryBuilder.With` | ent/fiatcurrency_query.go:385-393 | requests an edge with a nested builder; the builder now owns it and all below it |
| `QueryBuilders.QueryBuilder.Clone` | ent/fiatcurrency_query.go:341-359 | a deep copy whose whole tree of builders is new and whose contents are those of the original without the foreign-key flags |
| `QueryBuilders.QueryBuilder.First` | ent/fiatcurrency_query.go:161-170 | the first node of the run limited to one row, or NotFound; the builder stays limited and touched |
| `QueryBuilders.QueryBuilder.Only` | ent/fiatcurrency_query.go:207-221 | a node exactly if one row matches, with its edges, NotFound if none does, NotSingular if two or more do, otherwise the error of the run; the builder stays limited to two |
| `QueryBuilders.QueryBuilder.Exist` | ent/fiatcurrency_query.go:318-328 | an invalid field, a column mismatch exactly if the builder already had a projection, otherwise whether any row matches; the builder stays limited to one row and with the id selected |
| `QueryBuilders.ExistTwice` | ent/fiatcurrency_query.go:279-288 | after one `Exist` a second one on the same builder always fails |
| `QueryBuilders.QueryBuilder.PrepareQuery` | ent/fiatcurrency_query.go:464-468 | the loop finds the first field that is neither a column nor a foreign key |
| `QueryBuilders.QueryBuilder.All` | ent/fiatcurrency_query.go:479-543 | on any tree of builders the mutating run returns `Run` of the old contents, so its only error is an invalid field, and leaves exactly `Touch` of them |
| `QueryBuilders.QueryBuilder.LoadAll` | ent/apikey_query.go:444-499 | the loop over mixed edge kinds loads them in order, stops at the first error and leaves later nested builders alone |
| `QueryBuilders.LoadToMany` | ent/fiatcurrency_query.go:607-637 | the map-based loader gives every parent the children whose foreign key is its id, in child order, and neither foreign-key error is reachable |
| `QueryBuilders.LoadToOne` | ent/institution_query.go:413-444 | the loader with the key index gives every parent the child with its key, runs no query if no parent has a key, and its error is unreachable |
| `QueryBuilders.IndexParents` | ent/fiatcurrency_query.go:608-616 | with distinct ids the map is the inverse of the position, and the key list is the list of ids |
| `QueryBuilders.IndexKeys` | ent/apikey_query.go:502-513 | the key list holds every non-null key once, the index lists the positions of the parents holding it |
| `QueryBuilders.DistributeMany` | ent/fiatcurrency_query.go:625-635 | fails exactly if a child's key is null or unknown; otherwise each parent ends up with the children that refer to it, in order |
| `QueryBuilders.DistributeOne` | ent/institution_query.go:434-442 | fails exactly if a child was not asked for; otherwise every parent ends up with the child it refers to |
| `QueryBuilders.RunNarrowed` | ent/fiatcurrency_query.go:617-624 | narrowing the nested builder for good and running it is running it with one more predicate |
| `QueryBuilders.CloneIsIndependent` | ent/institution_query.go:269-284 | clone, use the clone by any sequence of calls on any databases, further edges with their options and further clones included, run the original: it returns what it would have returned at once, and so did the clone |
| `EagerLoad.Run` | ent/fiatcurrency_query.go:479-543 | one node per fetched row; the only error is that of an invalid field |
| `LoadedValues.RunShows` | ent/fiatcurrency_query.go:493-497 | each node has the id of the row at its position, exactly the cells and keys of the fetched columns, and the row's values in them |
| `LoadedValues.RunFaithful` | ent/fiatcurrency_query.go:479-543 | at every depth, every node under a to-many edge shows in that sense a row that refers to its parent's, the node under a to-one edge the row its parent's refers to, and edges not requested are not loaded |
| `LoadedValues.FetchedExactly` | ent/fiatcurrency_query.go:687-695 | a column is fetched if and only if it is selected, is any column of the table when nothing was selected, is the id, or is a foreign key and those are asked for or needed by a to-one edge |
| `LoadedValues.IdFetchedOnce` | ent/institution_query.go:463-471 | with a projection the id comes first and once |
| `LoadedValues.BadFieldMeans` | ent/fiatcurrency_query.go:464-468 | a query is refused for the first field that is neither a column nor a foreign key |
| `EagerLoadProofs.EagerIsLazy` | ent/fiatcurrency_query.go:479-668 | for every schema, database and tree of nested queries without nested limits, the batched run equals the nested-loop join in which every parent runs its own queries, at every depth |
| `EagerLoadProofs.EagerEdge` | ent/institution_query.go:371-444 | the same for one edge of one parent, whichever its kind and whatever limits the other edges have |
| `EagerLoadProofs.RunSucceeds` | ent/fiatcurrency_query.go:464-468 | a run succeeds if all projections in the tree are valid |
| `EagerLoadProofs.ChildrenReferToParents` | ent/fiatcurrency_query.go:625-634 | every child of the batch carries a key of one of the parents, so the errors about nil and unexpected foreign keys cannot occur |
| `EagerLoadProofs.ChildrenAreRequested` | ent/institution_query.go:434-438 | every child of a to-one batch was asked for |
| `EagerLoadProofs.KeysDistinct` | ent/institution_query.go:416-425 | no key is asked for twice |
| `EagerLoadProofs.RunAfterWhere` | ent/fiatcurrency_query.go:617-621 | writing the loader's predicate and flag into the builder and running it is, for result and residue, running it with them |
| `EagerLoadProofs.RerunNarrowed` | ent/institution_query.go:429-430 | running a touched builder again returns the same, even if the same predicates are appended once more, at every depth |
| `EagerLoadProofs.RerunReturnsSame` | ent/fiatcurrency_query.go:617-621 | any number of runs of one builder over an unchanged database return the same rows and edges |
| `EagerLoadProofs.CloneReturnsSame` | ent/institution_query.go:269-284 | dropping the foreign-key flags in the whole tree changes no result, because loaders set them again |
| `EdgeLaws.EveryChildOnce` | ent/fiatcurrency_query.go:607-637 | nested limits or not, the children of the batch are dealt out to the parents as a permutation: none lost, none given twice |
| `EdgeLaws.FirstIsHeadOfAll` | ent/fiatcurrency_query.go:161-170 | whenever `All` would succeed, the run limited to one row succeeds and returns the head of what `All` returns, edges included |
| `EdgeLaws.FewerRowsSucceed` | ent/fiatcurrency_query.go:505-543 | a run that succeeds also succeeds on any part of its rows, at every depth, because it reaches fewer nested queries |
| `EdgeLaws.InverseEdgesAgree` | ent/institution_query.go:413-444 | with unfiltered nested queries on the two edges, whatever is selected at the top, on other edges and further down, a child is in a parent's loaded list if and only if the parent is the child's loaded parent |
| `EdgeLaws.CurrencyInstitutionInverse` | ent/schema/institution.go:34-38 | the institutions of a currency and the currency of an institution are such a pair of edges |
| `BuilderReuse.ReusedBuilderEdge` | ent/fiatcurrency_query.go:617-635 | after a first run, a parent of another selection gets on an edge of either kind what it should get, with everything below, if and only if the first run asked for it too or there is nothing to get; otherwise it gets nothing |
| `BuilderReuse.SecondPageLosesChildren` | ent/fiatcurrency_query.go:607-637 | for every schema and to-many edge there is a database on which limit one, run, offset one, run again returns the second entity without its only child |
| `BuilderReuse.TouchedLooksSame` | ent/institution_query.go:429-442 | what a run leaves behind in a tree of builders does not show on the rows of that run, at every depth |
| `BuilderReuse.ReusedBuilderChildren` | ent/fiatcurrency_query.go:618-621 | for the rows of one to-many query: outside the first parents it finds nothing |
| `NestedLimits.NestedLimitBreaksEagerLoading` | ent/fiatcurrency_query.go:703-708 | for every edge of either kind, eager loading matches one query per parent on every database if and only if the nested query has neither limit nor offset |
| `InstitutionScan.ScanValues` | ent/institution.go:60-77 | one destination per column, of the column's type |
| `InstitutionScan.AssignValues` | ent/institution.go:81-135 | fails exactly on missing or ill-typed values, otherwise assigns column by column |
| `InstitutionScan.ReadRow` | ent/institution.go:60-135 | for every column list, repeated and unknown ones included, reading a row never fails and yields exactly the fetched part of the row |
| `InstitutionScan.RestrictedByName` | ent/institution.go:86-132 | each column lands in the field of its name and in no other, NULLs and columns that were not fetched leave zero values, and all other columns are kept aside by name |
| `InstitutionScan.FetchedColumns` | ent/institution_query.go:371-394 | the id is always fetched, the foreign keys exactly when asked for, and of the rest what was selected |
| `HookChain.Compose` | ent/ent.go:608-621 | the backward loop is the right fold: `f(g(h(base)))` |
| `HookChain.NestMeans` | ent/client.go:431-435 | no hook leaves the mutator alone, one wraps it, three run as `f(g(h))` |
| `HookChain.NestVisits` | ent/ent.go:542-573 | for lists of any length every hook is entered once, in order |
| `HookChain.ComposeChecked` | ent/ent.go:542-573 | the same with missing hooks: it fails exactly if one is missing |
| `HookChain.NestConcat` | ent/client.go:433-435 | registering two lists one after the other nests like registering their concatenation |
| `HookRegistry.Append` | ent/client.go:4436-4438 | Go's `append`: in place while the capacity lasts, leaving everything before and behind alone, otherwise into a new array |
| `HookRegistry.Registry.Use` | ent/client.go:4436-4438 | registers hooks, possibly in the shared array, and every list handed out before stays intact |
| `HookRegistry.Registry.Hooks` | ent/client.go:4597-4600 | hands out the registered hooks followed by the schema's without writing to the shared array |
| `HookRegistry.Interleave` | ent/client.go:4747-4750 | after every interleaving of `Use` and `Hooks`, with any growth of the arrays, each list handed out still holds the hooks registered before it, then the schema's |
| `HookRegistry.WithoutFullSliceExpression` | ent/client.go:4597-4600 | without the full slice expression a later `Use` overwrites the schema hooks of a list already handed out exactly if the spare capacity has room for both |
| `BulkCreate.BulkSave.constructor` | ent/institution_create.go:482-488 | every builder's mutation starts out with its defaults filled in |
| `BulkCreate.BulkSave.Save` | ent/institution_create.go:478-535 | outcome, table and the done flag and id of every mutation as `BulkOutcome`, on failing exits too: done exactly if the batch was written and no later builder's hook failed; one write attempt exactly if all builders were admitted; the table is unchanged or has one more row per builder behind the old ones, numbered on; on success each returned node is the row at its position, every mutation aliases its node's id, and ids stay unique |
| `BulkCreate.BulkSave.RunHooks` | ent/institution_create.go:523-533 | from any point of the chain: untouched earlier builders, first failure in index order, at most one write, then the errors of hooks that act afterwards from the inside out |
| `BulkCreate.BulkSave.Mutate` | ent/institution_create.go:489-522 | the closure checks the builder's own mutation, takes over the one passed on, builds its spec before the next one runs, and marks itself done only after all later ones succeeded |
| `BulkCreate.BulkSave.BatchCreate` | ent/institution_create.go:503-511 | all rows or none; each spec gets the id of the row written for it, in spec order behind the old rows |
| `BulkCreate.RowsOfOutcome` | ent/institution_create.go:512-521 | whenever a bulk save wrote, also if a hook failed afterwards, row j holds what builder j contributes and has the id its mutation got; ids stay unique and the table's constraints hold |
| `BulkCreate.WriteErrorMeans` | ent/migrate/schema.go:102-125 | a batch is refused as a constraint violation if and only if the table with it would miss a required column or have a code twice |
| `BulkCreate.FirstFailureDecides` | ent/institution_create.go:494-501 | the batch is complete if and only if every builder alone is admitted; otherwise the first that is not decides the error |
| `BulkCreate.ErrorsWriteNothingByKind` | ent/institution_create.go:500-521 | for all hooks of given kinds, all drafts and all tables, an error of a bulk save means that nothing was written if and only if no hook fails after calling the next or some hook fails before |
| `BulkCreate.BackToKind` | ent/institution_create.go:512-514 | an error comes back from the builders from an index on exactly if one of them has a hook that fails after |
| `BulkCreate.SingleErrorsByKind` | ent/ent.go:542-573 | the same condition for a single save |
| `BulkCreate.DefaultsThenCheck` | ent/institution_create.go:134-172 | after the defaults only code, name and a bad type can fail the checks; what was set stays, and a second time changes nothing |
| `BulkCreate.DefaultsMean` | ent/institution_create.go:134-147 | missing times become the current one, a missing type `bank`, and nothing else changes |
| `BulkCreate.CheckMeans` | ent/institution_create.go:150-172 | which field each error names: the first one missing in column order, or a type other than the two |
| `BulkCreate.SameMutation` | ent/institution_create.go:494-499 | without a replacing hook the checked mutation is the written one |
| `BulkCreate.BatchIsChecked` | ent/institution_create.go:494-511 | for any number of builders without replacing hooks every row of the batch passed the checks |
| `BulkCreate.RowsCheckedByKind` | ent/institution_create.go:489-528 | for all hooks of given kinds, all drafts and all tables, every row a bulk save writes passed the checks if and only if no hook replaces the mutation or some hook fails before calling the next |
| `BulkCreate.ReplacementEscapesCheck` | ent/institution_create.go:494-499 | with a replacing hook a row of an invalid type is written |
| `BulkCreate.SingleSave.Save` | ent/institution_create.go:106-109 | outcome, table, done flag and id as `SingleOutcome`; the mutation is done exactly if a row was written, the row is behind the old ones, and the returned node is that row |
| `BulkCreate.RowOfSingle` | ent/institution_create.go:179-189 | a written row holds the mutation that arrived and has the id the mutation got, also if a hook failed afterwards |
| `BulkCreate.SingleSave.RunHooks` | ent/ent.go:542-573 | what the remaining hooks and the save amount to, with or without a mutation that took the builder's place |
| `BulkCreate.SingleSave.SqlSave` | ent/institution_create.go:174-190 | check, write, then node and mutation carry the same id |
| `BulkCreate.BulkOfOne` | ent/institution_create.go:489-522 | a bulk of one has the row, the node or error, the done flag and the id of a single save if and only if the builder's own mutation and the one passed on get the same verdict from the checks |
| `BulkCreate.BulkOfOneByKind` | ent/ent.go:542-573 | it has them for all hooks of given kinds, all drafts and all tables if and only if no hook replaces the mutation or some hook fails before calling the next |
| `BulkCreate.BulkOfOneWithoutReplacement` | ent/institution_create.go:174-190 | so it has for all hooks that pass on the same mutation |
| `ActionIds.MarkKeyInjective` | controllers/index.go:1490-1504 | the key `<id>_<action>` determines id and action for every text |
| `ActionIds.MarkKeyText` | controllers/index.go:1494-1494 | the two forms of the key |
| `ActionIds.ActionMarks.IsProcessed` | controllers/index.go:1491-1496 | the string-keyed map answers membership in a set of pairs |
| `ActionIds.ActionMarks.MarkProcessed` | controllers/index.go:1499-1504 | adds exactly one pair to that set |
| `ActionIds.CallbackIdRoundTrip` | controllers/index.go:1246-1247 | both modal callback ids decode to their action and id |
| `ActionIds.ActionIdRoundTrip` | controllers/index.go:836-848 | each `<verb>_kyb_<id>` decodes to its id, whatever its text |
| `ActionIds.LegacyActionIdRoundTrip` | controllers/index.go:849-850 | `<verb>_<id>` decodes to its id if and only if the id does not start with `kyb_` |
| `ActionIds.ReviewButton` | controllers/index.go:838-845 | the plain review button stands for the profile in its value |
| `ActionIds.UnknownButton` | controllers/index.go:851-855 | a text with none of the prefixes is refused |
| `KybSubmission.KybController.HandleKYBSubmission` | controllers/index.go:1507-1753 | all or nothing on every exit path, the exact condition for committing and for each refusal, which profile the submission goes to, every stored field, everybody else unchanged, and valid tables afterwards |
| `KybSubmission.Transaction` | controllers/index.go:1593-1722 | succeeds exactly if every call does, and then amounts to the whole submission, field by field |
| `KybSubmission.SubmittedValid` | ent/migrate/schema.go:126-141 | a submission keeps at most one profile per user and every owner's profile in the table |
| `KybSubmission.SubmittedOwners` | controllers/index.go:1660-1704 | exactly the input's owners replace the old ones; other profiles keep theirs |
| `KybSubmission.SubmittedFiled` | controllers/index.go:1597-1644 | each paper is stored under its own name, an absent AML policy as an empty text, an absent licence or KYC policy as none; the user is the submitter and pending with the same email, an old comment is kept, everybody else is unchanged |
| `KybSubmission.OneProfileEach` | controllers/index.go:1549-1572 | the profile found is the user's only one |
| `KybWorkflow.InvAlways` | controllers/index.go:1246-1257 | in every run the history of each review is consistent with the marks, and whoever started after a mark is turned away |
| `KybWorkflow.InvStep` | controllers/index.go:1388-1399 | every single event keeps that invariant |
| `KybWorkflow.LateReviewNeverWrites` | controllers/index.go:1246-1487 | in every interleaving of any number of reviews, one that starts its check after some mark for the profile never writes a status or comment |
| `KybWorkflow.LateReviewChangesNothing` | controllers/index.go:1250-1257 | nor does any step of such a review change the tables in any way |
| `KybWorkflow.DecidersOverlap` | controllers/index.go:1490-1504 | any two reviews that decided one profile had overlapping check-to-mark windows |
| `KybTrap.HonestAlways` | controllers/index.go:1549-1722 | in every run, submissions checking outside their transaction included, the tables stay valid and no user has two profiles |
| `KybTrap.QuietStep` | controllers/index.go:1250-1257 | with a marked profile and no review of it past the marks, no event but a restart changes that, and only a committing submission changes the user's status, to pending |
| `KybTrap.Resubmitted` | controllers/index.go:1565-1605 | a marked profile that is neither pending nor approved can be submitted again, other submissions in flight or not, under its old id and mark |
| `KybTrap.ResubmissionStaysPending` | controllers/index.go:1392-1399 | whatever happened before, once a profile is marked and no review of it is past the marks, every continuation without a restart, however submissions and reviews interleave, leaves the user's status as it was, or pending exactly if it commits a submission of the user |
| `KybTrap.RejectionReachesTrap` | controllers/index.go:1246-1372 | from every valid database, the rejection of any user's profile run alone ends with the profile marked, no review of it past the marks and the user rejected |
| `KybTrap.RejectedThenTrapped` | controllers/index.go:1595-1605 | for every valid database and profile: rejected, submitted again into the same profile, and pending at the end of every continuation without a restart |
| `KybTrap.NeverApprovedWithoutRestart` | controllers/index.go:1388-1399 | so in every such continuation the user does not become approved |
| `KybTrap.FreshProcessCanApprove` | controllers/index.go:1388-1463 | after a restart, from every state, there is a run that approves the same profile |
| `KybTrap.OverlappingReviewsBothDecide` | controllers/index.go:1250-1257 | for every profile with a user there is a run in which an approval and a rejection both decide, leaving the user rejected without a comment |
| `KybOutcomes.RejectionAlone` | controllers/index.go:1246-1367 | a rejection run alone leaves the tables as they were except that the user is rejected and the profile's comment is the reason |
| `KybOutcomes.ApprovalAlone` | controllers/index.go:1388-1463 | an approval run alone leaves the tables as they were except that the user is approved and the profile has no comment |
| `KybOutcomes.FailedStepEnds` | controllers/index.go:1347-1351 | a review step that fails after the mark ends the review and changes no table and no mark |
| `KybOutcomes.UnreadableLeavesMark` | controllers/index.go:1256-1300 | a review whose payload cannot be read decides nothing and leaves the profile marked with no review past the marks, where the trap starts |
| `KybOutcomes.OverlapLosesComment` | controllers/index.go:1361-1365 | the rejection that alone stores its comment loses it in a run in which an approval overlaps |
| `KybOutcomes.FilingAlone` | controllers/index.go:1549-1722 | a submission whose steps follow each other goes through exactly if the user may submit, with the effect of the handler in one piece |
| `OrderStatus.GetLockPaymentOrderStatus` | controllers/index.go:349-411 | not found exactly if no transaction of any split is created, settled or refunded; otherwise receipts, hash, totals and the other fields as `Reports` says |
| `OrderStatus.Aggregate` | controllers/index.go:355-382 | the nested loops collect the qualifying transactions in the order met, one settlement per split and the three sums |
| `OrderStatus.AppendReceipts` | controllers/index.go:356-370 | the inner loop appends the receipts of one split |
| `OrderStatus.ReceiptStatus` | controllers/index.go:357-368 | three statuses are shown: created as pending, settled and refunded under their names, with the transaction's hash and time |
| `OrderStatus.ReceiptsMean` | controllers/index.go:356-370 | the receipts of a split are those of its qualifying transactions, one each and in their order |
| `OrderStatus.SortStable` | controllers/index.go:384-387 | the sort is a permutation, newest first, with ties in the order met |
| `OrderStatus.StableSortUnique` | controllers/index.go:384-387 | that leaves only one possible result, whichever stable sort is used |
| `OrderStatus.LatestFirst` | controllers/index.go:407-407 | the reported hash is that of a latest receipt |
| `TransferAmount.ScaleNearest` | controllers/index.go:1991-2004 | the scaled amount is within half a unit of the last place |
| `TransferAmount.DivRoundTies` | controllers/index.go:2003-2003 | a value in the middle is rounded away from zero |
| `TransferAmount.ScaleMonotone` | controllers/index.go:2003-2003 | a larger transfer never scales to less |
| `TransferAmount.ScaleExact` | controllers/index.go:2003-2003 | the scaling is exact if and only if the token has no more decimals than the division keeps or the amount is a multiple of what is cut off |
| `TransferAmount.SumError` | controllers/index.go:1991-2004 | the error of a sum of n scaled transfers is at most n half units |
| `TransferAmount.DustIsDropped` | controllers/index.go:2003-2003 | with 18 decimals and precision 16, 49 units vanish and 50 become one |
| `SignedMessage.EnvelopeInjective` | controllers/index.go:654-656 | no two messages share an envelope, although the length digits are not delimited |
| `SignedMessage.DigitsMean` | controllers/index.go:655-655 | the length is written as the decimal numeral that, read from left to right, has its value, without leading zeros |
| `SignedMessage.HashedIff` | controllers/index.go:654-656 | the hashed bytes are exactly 0x19, the fixed text, a newline, the numeral of the length and the signed text |
| `SignedMessage.SameMessage` | controllers/index.go:654-654 | exactly which wallet and nonce pairs produce the same text: the same pair, a second separator, or two separators sharing a blank |
| `SignedMessage.UnequalWalletsCanCollide` | controllers/index.go:654-654 | both kinds of collision occur |
| `SignedMessage.DecodeHexSucceeds` | controllers/index.go:642-645 | decoding succeeds exactly on hex digits of even number, two per byte |
| `SignedMessage.DecodeHexInjective` | controllers/index.go:642-645 | two signature texts denote the same bytes if and only if they differ in letter case only |
| `SignedMessage.HexRoundTrip` | controllers/index.go:642-645 | decoding the hex text of any bytes gives the bytes back |
| `SignedMessage.VerifyIff` | controllers/index.go:641-668 | a request is accepted if and only if its signature text is, letter case aside, the hex of 64 bytes and 27 plus a recovery id from which, with the EIP-191 bytes of the request, the wallet is recovered |
| `SignedMessage.VerifyRejects` | controllers/index.go:642-651 | which error a signature text draws: format, length or recovery id, each exactly when |
| `SignedMessage.LowerMeans` | controllers/index.go:663-663 | the comparison of addresses forgets letter case and nothing else |
| `SignedMessage.VerifyAccepts` | controllers/index.go:641-668 | an accepted request has 130 hex digits ending in one of two recovery ids and a 42-character address as wallet text |
| `SignedMessage.AcceptedBytesDetermineRequest` | controllers/index.go:641-668 | among accepted requests the hashed bytes determine wallet text and nonce |

## Left out

- Path traversals (`QueryInstitutions` and the like), `Unique`, `GroupBy`, `Aggregate`, `Count`, `IDs`, upserts, updates, deletes and the `X` wrappers: repeats of the template or one-line delegations.
- Interceptors and traversers inside a query run; their composition is modelled.
- Negative limits and offsets, and an `ORDER BY` over values without a total order.
- Edges of the tables behind the three modelled entities, and the scanning of other entities than Institution: the same template.
- Nodes are values: that two parents of a to-one edge share one child object is not captured.
- A nested builder that escapes through an option closure and is changed from outside.
- RowSet.SelectMembers: SQL is a row-set semantics; dialects, drivers, joins and NULL ordering are not modelled.
- The error a bulk builder may already carry when `Save` is called (`icb.err`).
- Creation of API keys is covered by the Institution template: its client-side ids and its own checks are not modelled.
- BulkCreate.BulkSave.Save: hooks that call the next mutator more than once or not at all without an error, hooks of a foreign mutation type and missing hooks are not modelled; a replacing hook passes on a new mutation.
- BulkCreate.BulkSave.BatchCreate: NOT NULL and the unique code are explicit, any other refusal by the database is the parameter `driverFails`.
- KybSubmission.KybController.HandleKYBSubmission: a body that does not parse is rejected before the model starts, a commit that reports an error counts as not committed, and emails are not changed by other handlers.
- KybTrap.HonestAlways: the transaction of a submission takes effect in one step, and its two reads before it, of the user and of the profile, are one step too.
- KybWorkflow.InvAlways: the fields of the modal payload are one step that succeeds or fails; Slack and email calls are dropped because nothing in the tables depends on them.
- KybOutcomes.RejectionAlone: the reason and the optional comment of the modal arrive as one text.
- KybWorkflow.LateReviewNeverWrites: ids travel in one canonical text; the handlers key the marks by the text of the id and the writes by the UUID parsed from it, which accepts several texts.
- OrderStatus.GetLockPaymentOrderStatus: decimals are reals, and the fetch of the splits with its errors is a parameter.
- TransferAmount.ScaleNearest: the precision is a parameter, the raw value is an integer and the number of decimals is not negative.
- SignedMessage.AcceptedBytesDetermineRequest: Keccak, key recovery and the checksummed address text are one parameter, and collisions of the hash are not considered.
- Slack modals, email, HTTP responses, webhook dispatch, HMAC, the indexers and the transfer processing behind the webhook, configuration and start-up: input and output, or code outside these files.
