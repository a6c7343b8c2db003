# Graph model service: transactional core in Dafny

This project models the core of a graph-model service written in TypeScript
(Express, Sequelize, PostgreSQL). Users own weighted directed graphs ("models").
Each graph is stored as a series of numbered versions. Creating a model is
priced in tokens and debited from the owner's balance. Anyone may propose a new
weight for one edge; the owner approves the proposal, which records a new
version whose edge weight is an exponential-smoothing blend of the old weight
and the proposed one, or rejects it. A range simulation sweeps one edge weight
over an interval, runs a path finder for each sample and records every result
and the cheapest one.

The repository carries two copies of most files. The kebab-case copies
(`user.dao.ts`, `model.repository.ts`, `model-facade.ts`, …) are called the
*current* generation and the PascalCase copies (`UserDao.ts`,
`ModelRepository.ts`, `ModelFacade.ts`, …) the *draft* generation. Both are
modelled, selected by `ModelStore.Generation`, and lemmas state where they agree.

## How the model is built

- **Amounts.** Balances, weights, prices and sweep bounds are integers in
  ten-thousandths, the scale of the `DECIMAL(12,4)` weight and sweep columns.
  Balances and ledger amounts live in `DECIMAL(12,2)` columns
  (src/model/graph-user.model.ts:52, src/model/graph-token-transaction.model.ts:43-45);
  the invariant keeps them whole numbers of hundredths.
  - `Fixed.Round2` is `Number(x.toFixed(2))`: the nearest whole number of hundredths, half away from zero.
  - The smoothing factor `alpha` is an integer in hundredths.
- **JavaScript numbers.** A number received from a caller is a `Num`: `Finite(value)`, or
  `NonFinite` for NaN and ±Infinity, which `Number.isFinite` treats alike. Where the code tests
  `isNaN` instead, as the sweep and its range check do, the three differ; `Simulation.JsNumber`
  keeps them apart for the range check and the sweep's loop variable.
- **Graphs.** A graph is the JSON object `{from: {to: weight}}` as an ordered list of
  nodes, each holding an ordered list of edges. A lookup takes the first match, and
  `{...g, [a]: {...g[a], [b]: w}}` is modelled as keeping an existing key in its place and
  appending a new one. JavaScript itself lists integer-like keys first, in numeric order, and the
  `graph_version` column is JSONB, which stores keys in its own order; see "Left out".
  Lookups are by own key only.
- **The database.** `Store.Db` is a value holding one sequence per table. Row ids are positional
  (autoincrement and no deletes): the row at index `i` has id `i + 1`. That is the integer
  `id_user` of src/model/graph-user.model.ts:44; the PascalCase models declare a UUID user id
  instead (see "Left out"). Each insert enforces the
  foreign keys and unique indexes the Sequelize models declare. `Store.Valid` is the invariant:
  - every foreign key resolves;
  - balances are non-negative with two decimals;
  - every version row's counts match its graph;
  - each model's version numbers are exactly 1 up to its pointer, the column `current_version_model` that names its current version.

  `Ledger.Accounts(db, db')` states that every balance change between two
  states is explained by the ledger rows appended in between.
- **Operations.** Each operation is a pure function from a database to
  `Result<(Db, answer), Fault>`.
  - A failed transaction returns the fault and no database, so its writes are discarded.
  - `Fault` is either an `ErrorObj` built by `getError`, a plain `Error` with a
    `status` field, or a driver error without a status.
- **Left as parameters.** The path finder (node-dijkstra) and the clock (`now`) are parameters. So
  is the smoothing factor: the code reads it from a setting the configuration never defines, which
  makes every approval fail (see "Findings"); the model of approval takes the factor the comment at
  src/service/WeightChangeService.ts:48 describes, and `Moderation.ApproveUnconfigured` models the
  code as it stands.

Where the code and its written description disagree, the model follows the code:
- model execution reports a price but debits nothing;
- the live (PascalCase) facade neither checks nor debits the balance;
- an approval does not write the previous weight, the blended weight, alpha or the
  reviewer onto the request row; it only marks the row approved.

## Model

| member | source | states |
|---|---|---|
| `Fixed.Round2` | src/service/model/model-builder.ts:14 | `toFixed(2)` yields a whole number of hundredths within half a hundredth of the input |
| `Fixed.Round2Idempotent` | src/dao/user.dao.ts:33-34 | rounding an already rounded amount changes nothing, so the DAO's repeated `toFixed(2)` is harmless |
| `Fixed.Round2Monotone` | src/service/weight-change.service.ts:100-102 | rounding never reverses the order of two amounts |
| `Fixed.Ema2` | src/service/weight-change.service.ts:18-20 | the rounded blend `alpha·prev + (1−alpha)·proposed` is a whole number of hundredths |
| `Fixed.BlendBetween` | src/service/weight-change.service.ts:18-20 | for 0 < alpha < 1 the unrounded blend lies between the old and the proposed weight, strictly when they differ |
| `Fixed.Ema2Between` | src/service/weight-change.service.ts:100-102 | with two-decimal inputs and 0 ≤ alpha ≤ 1 the rounded blend never overshoots either weight |
| `Fixed.EmaExample` | src/service/WeightChangeService.ts:14-16 | prev 5.00, proposed 9.00, alpha 0.9 gives 5.40 |
| `ApiError.NewErrorObj` | src/common/util/api-error.ts:22-28 | the constructed error carries exactly the status, message and kind it was given, with the kind as its name |
| `ApiError.ToJson` | src/common/util/api-error.ts:43-45 | the serialised error holds the status and the message and nothing else |
| `ApiError.GetError` | src/common/util/api-error.ts:163-174 | each override that is present wins over the table row; an absent one takes the table's value |
| `ApiError.LegacyGetError` | src/common/util/api.error.util.ts:154-157 | the same override-first rule over the older table, falling back to the generic row |
| `ApiError.LegacyGetErrorFirst` | src/common/util/api.error.util.ts:149-152 | the override-free factory always returns the table row of the kind, or the generic row |
| `ApiError.StatusMapping` | src/common/util/api-error.ts:61-146 | the table statuses of the kinds the core raises: not found 404, unauthorized 401, bad request 400, conflict 409, generic 500, DB error 500 |
| `ApiError.DefaultStatusesAreErrors` | src/common/util/api-error.ts:61-146 | for every kind, the status `getError` gives without overrides is an HTTP error status, 4xx or 5xx |
| `ApiError.TableIsTotal` | src/common/util/api-error.ts:168 | every kind has a row, so the fallback to the generic row never fires |
| `ApiError.LegacyTableAgrees` | src/common/util/api.error.util.ts:47-135 | the older table maps the shared kinds to the same rows; the DB error kind, which it lacks, falls back to generic 500 |
| `ApiError.OverriddenErrorsAgree` | src/common/util/api.error.util.ts:154-157 | with both overrides given, as every call site in the core gives them, the two factories build the same error |
| `ApiError.Raise` | src/common/util/api-error.ts:163-174 | a fully overridden error has exactly the given status and message |
| `Graphs.NodeIndex` | src/service/weight-change.service.ts:92 | the position found holds the key and no earlier node does; none is found exactly when the key is absent |
| `Graphs.EdgeIndex` | src/service/weight-change.service.ts:92 | the same for a target inside one row |
| `Graphs.EdgeCountIsPairCount` | src/service/model/model-builder.ts:10-13 | in a well-formed graph the edge count equals the number of distinct (source, target) pairs |
| `Graphs.EdgePairsAreEdges` | src/service/model/model-builder.ts:10-13 | the pairs counted are exactly those the weight lookup sees |
| `Graphs.Price` | src/service/model/model-builder.ts:14 | the price is `0.20` per node plus `0.01` per edge, already a whole number of hundredths |
| `Graphs.Build` | src/service/model/model-builder.ts:8-16 | for a present graph the node count is its number of source keys, the edge count its number of adjacency entries, and the price 0.20 per node plus 0.01 per edge; a missing graph counts as empty and costs 0 |
| `Graphs.BuildPositive` | src/service/model/model-builder.ts:9-14 | the price is positive exactly when the graph has a node |
| `Graphs.BuildAddNode` | src/service/model/model-builder.ts:9-14 | adding a source node adds 0.20 plus 0.01 per new edge to the price |
| `Graphs.SetEdgeLookup` | src/service/weight-change.service.ts:104 | the row update gives the target the new weight and leaves every other target's weight alone |
| `Graphs.SetWeightLookup` | src/service/weight-change.service.ts:104 | the spread update sets exactly one weight: a→b reads the new value and every other lookup reads what it read before |
| `Graphs.SetWeightKeepsCounts` | src/service/weight-change.service.ts:104-114 | rewriting an existing edge changes neither count, so the recorded counts and the price stay the same |
| `Graphs.SetWeightWellFormed` | src/service/weight-change.service.ts:104 | the spread update keeps a graph free of duplicate keys |
| `ValidationChain.TokenOf` | src/service/model/validation/model-validation-chain.ts:23 | a missing user or token reads as 0 |
| `ValidationChain.Check` | src/service/model/validation/model-validation-chain.ts:22-27 | the handler passes exactly for a positive token and otherwise throws unauthorized 401 "Tokens depleted" |
| `ValidationChain.SetNext` | src/service/model/validation/model-validation-chain.ts:8-11 | linking returns the handler linked, and the chain now continues with it |
| `ValidationChain.Handle` | src/service/model/validation/model-validation-chain.ts:13-16 | a chain fails with the first failing check, and passes only if every check passes |
| `ValidationChain.HandleIsFirstFailure` | src/service/model/validation/model-validation-chain.ts:13-16 | handling a linked chain equals the reference semantics "first failing check" of its flattened list |
| `ValidationChain.PositiveTokensGate` | src/service/model/model-facade.ts:23-26 | the one-handler chain at model creation lets the request through exactly when the token it is handed is positive |
| `Store.FindUser` | src/dao/user.dao.ts:84 | a primary-key lookup finds the user exactly when the id names a row, and returns that row |
| `Store.FindUserByEmail` | src/dao/user.dao.ts:66-74 | the id found carries the e-mail and no earlier row does; none is found exactly when no row has it |
| `Store.InsertUser` | src/model/graph-user.model.ts:45 | the insert succeeds exactly for a fresh e-mail and appends the row under the next id |
| `Store.InsertModel` | src/repository/model.repository.ts:10-15 | the insert succeeds exactly for an existing owner and an unused (owner, name) pair |
| `Store.InsertVersion` | src/model/GraphVersion.ts:59 | the insert succeeds exactly for an existing model and creator and an unused (model, number) pair |
| `Store.InsertSimRow` | src/model/graph-simulation-result.model.ts:39-42 | a result row is stored exactly when its simulation exists and its cost is finite: the cost column is NOT NULL DECIMAL(12,4) and holds no `Infinity` |
| `Store.VersionsUpToPointer` | src/model/GraphModel.ts:43 | under the invariant a model's versions are numbered 1 to its pointer, and the pointer's number is present |
| `Ledger.ApplyBalanceWithLock` | src/dao/user.dao.ts:17-63 | 404 for a missing user, 400 for a non-finite or negative balance; on success the balance becomes the rounded value and one ledger row records prev, next and diff; a performer id other than 0 is stored as given and fails unless it names a user; the 409 branch is unreachable |
| `Ledger.ApplyBalanceValid` | src/dao/user.dao.ts:37-54 | a successful balance change keeps the invariant and is explained by the ledger |
| `Ledger.DefaultReason` | src/dao/user.dao.ts:136 | a missing or empty reason becomes the admin-recharge tag; any other reason is kept |
| `Ledger.SetNewBalance` | src/dao/user.dao.ts:117-142 | 400 for a non-positive or non-finite amount before the user is read, 404 for a missing user; succeeds exactly when, in addition, the new balance is non-negative and the performer (0 read as none) names a user; then the balance grows by the rounded amount, the row is logged and no other table changes |
| `Ledger.SetNewBalanceAdds` | src/dao/user.dao.ts:124-131 | on a valid database the balance grows by exactly the rounded amount, the reported recharge is that amount, and balances never go down |
| `Ledger.SetAbsoluteBalance` | src/dao/user.dao.ts:145-161 | 400 for a negative or non-finite amount before the user is read, 404 for a missing user; succeeds exactly when, in addition, the performer (0 read as none) names a user; then the balance is the rounded amount, the row is logged and no other table changes |
| `Ledger.FindById` | src/dao/user.dao.ts:76-89 | a non-finite or non-positive id is refused with 400, any other id is looked up |
| `Ledger.CreateUser` | src/dao/user.dao.ts:91-114 | a given balance must be finite and non-negative and is stored rounded; the role defaults to "user"; no ledger row is written |
| `Ledger.CreateUserValid` | src/dao/user.dao.ts:100-109 | a successful creation keeps the invariant and the accounts |
| `Ledger.SetNewBalanceDraft` | src/dao/UserDao.ts:154-240 | the draft recharge: same checks; the row's diff is the rounded amount, the performer is stored as given (so 0 or a negative id fails the foreign key), the reason is not defaulted; succeeds exactly for a positive amount, an existing user and a performer that is absent or names a user |
| `Ledger.DraftRechargeAgrees` | src/dao/UserDao.ts:176-229 | on a valid database, with a performer and a non-empty reason, the draft recharge equals the current one |
| `Ledger.SetNewBalanceDraftValid` | src/dao/UserDao.ts:206-229 | a successful draft recharge keeps the invariant and the accounts |
| `Ledger.CreateUserDraft` | src/dao/UserDao.ts:107-130 | the draft creation inserts the row exactly as given, succeeding exactly for a fresh e-mail |
| `UserRepository.GetById` | src/repository/user.repository.ts:52-57 | outside a transaction the DAO's id guard applies; inside one a positive-key lookup is direct |
| `UserRepository.ToFixedNum` | src/repository/user.repository.ts:79 | `toFixed(2)` read back keeps finiteness and rounds to hundredths |
| `UserRepository.Create` | src/repository/user.repository.ts:73-90 | on success the user row and a zero-diff seed row exist; a failure after the first write leaves the user row in place |
| `UserRepository.CreateLeavesUserOnFailure` | src/repository/user.repository.ts:76-87 | an initial balance of −0.004 leaves a stored user behind although the call fails with 400 |
| `UserRepository.CreateAtomic` | src/repository/user.repository.ts:73-90 | the corrected creation succeeds exactly when the non-atomic one does, with the same result; otherwise nothing is written |
| `UserRepository.CreateAtomicValid` | src/repository/user.repository.ts:73-90 | the corrected creation succeeds exactly for a fresh e-mail and a finite non-negative balance, and keeps the invariant and the accounts |
| `UserRepository.UpdateTokensByEmail` | src/repository/user.repository.ts:111-146 | 404 for an unknown e-mail before the amount is checked, 400 for an amount that is not positive; succeeds exactly for a known e-mail, a positive amount, a non-negative new balance and a performer that is absent, 0 or names a user; on success only that user's balance and one admin-recharge ledger row change, and the answer carries the e-mail |
| `UserRepository.UpdateTokensByEmailAdds` | src/repository/user.repository.ts:118-145 | on a valid database the user's balance grows by the rounded amount, and the invariant and the accounts hold |
| `UserRepository.ChargeByUserId` | src/repository/user.repository.ts:149-167 | succeeds exactly when the absolute set does; answers the requested balance as given while storing it rounded |
| `UserRepository.CreateDraft` | src/repository/UserRepository.ts:67-75 | the draft creation succeeds exactly for a fresh e-mail and stores the rounded balance, whatever its sign |
| `UserRepository.CreateDraftStoresNegative` | src/repository/UserRepository.ts:73 | an initial balance of −5 is stored and breaks the invariant |
| `UserRepository.CreateDraftChecked` | src/repository/UserRepository.ts:67-75 | the corrected draft creation refuses a negative balance with 400 and is otherwise the draft creation |
| `UserRepository.CreateDraftCheckedValid` | src/repository/UserRepository.ts:67-75 | the corrected draft creation keeps the invariant and the accounts |
| `UserRepository.UpdateBalanceByEmailDraft` | src/repository/UserRepository.ts:96-133 | 404 for an unknown e-mail; otherwise exactly the draft recharge with a missing reason defaulted to "admin recharge" |
| `ModelStore.FindModelByPk` | src/dao/model.dao.ts:30-38 | a non-finite id fails with 400 (an `ErrorObj` in the current DAO, a plain error in the draft DAO at src/dao/ModelDao.ts:19-27), any other is looked up |
| `ModelStore.LatestIndex` | src/dao/model.dao.ts:48-55 | the row found has the largest number of the model's rows, the first of them on a tie; none exactly when the model has no rows |
| `ModelStore.FindVersion` | src/dao/model.dao.ts:40-46 | the version found has exactly that model and number; none exactly when no row has both |
| `ModelStore.FindLatestVersion` | src/dao/model.dao.ts:48-55 | the version found belongs to the model and no version of it has a larger number |
| `ModelStore.CreateModel` | src/dao/model.dao.ts:10-18 | succeeds exactly when the insert does; the current DAO turns any failure into generic 500, the draft DAO (src/dao/ModelDao.ts:9-12) passes it through |
| `ModelStore.CreateVersion` | src/dao/model.dao.ts:20-28 | the same error policy for a version insert |
| `ModelStore.CreateModelWithVersion` | src/repository/model.repository.ts:9-28 | appends the model with its pointer and the version created by the owner; succeeds exactly for an existing owner and an unused name |
| `ModelStore.GetLatestVersion` | src/repository/ModelRepository.ts:45-51 | null for a missing model; the current repository (src/repository/model.repository.ts:30-34) takes the largest number, the draft one tries the version numbered by `current_version_model` first |
| `ModelStore.GetModel` | src/repository/model.repository.ts:36-38 | finds a model exactly when the id names one |
| `ModelStore.LatestPoliciesAgree` | src/repository/ModelRepository.ts:46-50 | under the invariant both latest-version policies return the version numbered by the model's `current_version_model` |
| `ModelStore.CreateModelWithVersionValid` | src/repository/model.repository.ts:9-28 | creating a model with version 1 and its builder counts keeps the invariant |
| `ModelFacade.CostGate` | src/service/model/model-facade.ts:20-26 | creation passes the gate exactly when the price is positive, and otherwise fails with 401 "Tokens depleted" |
| `ModelFacade.CreateModelAndCharge` | src/service/model/model-facade.ts:19-79 | an empty graph fails at the gate; any other runs the creation transaction |
| `ModelFacade.CreateTransaction` | src/service/model/model-facade.ts:29-75 | 404 for a missing owner, 401 for a balance below the price; on success the model and version 1 are added and the balance is set to `tokens − cost` with a logged row |
| `ModelFacade.CreateModelAndChargeSucceeds` | src/service/model/model-facade.ts:19-79 | on a valid database creation succeeds exactly for a non-empty graph, an existing owner who can pay, and an unused name |
| `ModelFacade.CreateModelAndChargeValid` | src/service/model/model-facade.ts:58-64 | a successful creation debits exactly the price, logs that debit and keeps the invariant and the accounts |
| `ModelFacade.CreateTransactionIsDebit` | src/service/model/model-facade.ts:44-64 | the transaction is the insert followed by setting the balance to `tokens − cost` |
| `ModelFacade.ExecuteAndCharge` | src/service/model/model-facade.ts:81-135 | 404 without a latest version, 400 when no path is found; on success nothing is written and the route, the price and the version number are reported |
| `ModelFacade.ExecuteFacadesAgree` | src/service/model/ModelFacade.ts:127-160 | on a valid database both facades execute the version numbered by the model's `current_version_model` and give the same answer |
| `ModelFacade.GetModelWithLatest` | src/service/model/model-facade.ts:137-143 | 404 for a missing model; otherwise the model and its latest version under the generation's policy |
| `ModelFacade.GetModelWithLatestValid` | src/service/model/ModelFacade.ts:162-167 | on a valid database the latest version reported is present and numbered by the pointer |
| `ModelFacade.CreateModelLive` | src/service/model/ModelFacade.ts:88-125 | as written: after the gate, the owner is looked up as a model id, and a miss fails with 404 "User not found" |
| `ModelFacade.LiveInsert` | src/service/model/ModelFacade.ts:103-120 | the live insert adds the model and version 1 and reports the price without debiting it |
| `ModelFacade.CreateModelLiveRefusesFirstModel` | src/service/model/ModelFacade.ts:99-100 | an existing user who owns no model cannot create one |
| `ModelFacade.CreateModelLiveFixed` | src/service/model/ModelFacade.ts:96-122 | corrected: the owner is looked up as a user |
| `ModelFacade.CreateModelLiveFixedSucceeds` | src/service/model/ModelFacade.ts:96-122 | on a valid database the corrected creation succeeds exactly for a non-empty graph, an existing owner and an unused name, whatever the balance |
| `ModelFacade.CreateModelLiveFixedValid` | src/service/model/ModelFacade.ts:103-120 | the corrected creation keeps the invariant and leaves every balance untouched |
| `ModelFacade.CreationsDifferOnlyInDebit` | src/service/model/ModelFacade.ts:120 | where both creations succeed they write the same rows; only the current one lowers the owner's balance, by exactly the price |
| `Sorting.SortDesc` | src/dao/weight-change.dao.ts:54-58 | the sorted listing is a permutation of the input (same multiset of entries) ordered by key, largest first |
| `Sorting.OrderByDesc` | src/dao/weight-change.dao.ts:54-58 | every selected id appears exactly once, in non-increasing key order |
| `Moderation.CreateRequestRow` | src/dao/weight-change.dao.ts:10-27 | a proposal row is stored with its weight rounded to hundredths, exactly when model and requester exist |
| `Moderation.ListRequests` | src/dao/weight-change.dao.ts:34-59 | lists exactly the requests of the model that pass the status and date filters, each once, newest first |
| `Moderation.ApproveRow` | src/dao/weight-change.dao.ts:61-71 | the conditional update hits one row exactly when the request is pending, and then only marks it approved |
| `Moderation.RejectRow` | src/dao/weight-change.dao.ts:73-87 | the same for rejection, also storing the reason |
| `Moderation.DecidedIsFinal` | src/dao/weight-change.dao.ts:67 | a decided request is out of reach of both conditional updates |
| `Moderation.RowUpdatesNoReopen` | src/dao/weight-change.dao.ts:61-87 | neither conditional update moves any request back to pending or changes its other fields |
| `Moderation.CreateRequest` | src/repository/weight-change.repository.ts:6-26 | the arguments are stored one-to-one as a pending request under the next id |
| `Moderation.CreateNewVersionFrom` | src/repository/weight-change.repository.ts:44-76 | succeeds exactly when model and creator exist and `base + 1` is unused; appends that version and moves the pointer to it |
| `Moderation.RequestWeightChange` | src/service/weight-change.service.ts:22-45 | 404 without a latest version, 400 unless the edge has a truthy weight; otherwise stores the rounded proposal |
| `Moderation.RequestWeightChangeValid` | src/service/weight-change.service.ts:22-45 | on a valid database a proposal is stored exactly when the model exists, its latest graph has the edge and the requester exists; the result is valid and pending |
| `Moderation.AnyoneMayPropose` | src/service/weight-change.service.ts:22-45 | a user who does not own the model can propose, and the proposal is stored pending and rounded |
| `Moderation.ApproveRequest` | src/service/weight-change.service.ts:59-130 | 404 without a latest version, 404 unless the request is pending for this model; otherwise the approval write |
| `Moderation.ApproveEdge` | src/service/weight-change.service.ts:86-128 | 400 for a missing edge; on success version `base + 1` holds the graph with the blended weight and its counts, the pointer moves, the request is approved; never 409 |
| `Moderation.ApproveSucceeds` | src/service/weight-change.service.ts:59-130 | on a valid database an approval succeeds exactly for a numeric id naming a model, a pending request of it, an existing approver and an edge present in the latest graph |
| `Moderation.ApproveRequestEffects` | src/service/weight-change.service.ts:106-128 | a success appends one version of the model numbered one above the latest, moves the pointer to it, approves the request and leaves users and ledger alone |
| `Moderation.ApproveRequestValid` | src/service/weight-change.service.ts:106-118 | a successful approval keeps the invariant and moves the pointer exactly one up |
| `Moderation.ApprovedGraph` | src/service/weight-change.service.ts:104-114 | the recorded graph differs from the latest one in the request's edge alone, and node count, edge count and price are unchanged |
| `Moderation.ApproveUnconfigured` | src/service/weight-change.service.ts:64-118 | with the smoothing factor unset an approval never succeeds |
| `Moderation.UnconfiguredNeverApproves` | src/service/weight-change.service.ts:64-118 | with the factor unset, an approval fails with the same error as the configured one wherever that stops before its write, and with the version insert's error wherever it reaches it, although on a valid database with an existing approver the configured one then succeeds for every alpha |
| `Moderation.ApproveBlends` | src/service/weight-change.service.ts:100-102 | the recorded weight is the rounded blend, which for 0 < alpha < 1 lies between old and proposed weight |
| `Moderation.ApprovedIsFinal` | src/service/weight-change.service.ts:74-84 | after an approval a second approval and a rejection of the same request both fail with 404 |
| `Moderation.RejectRequest` | src/service/weight-change.service.ts:132-160 | 404 unless the request is pending for the model; otherwise it is marked rejected with its reason; never 409 |
| `Moderation.RejectedIsFinal` | src/service/weight-change.service.ts:140-150 | after a rejection an approval and a second rejection both fail with 404 |
| `Moderation.RejectRequestValid` | src/service/weight-change.service.ts:132-160 | a rejection keeps the invariant, records status and reason on that request only, and writes no version |
| `Moderation.ListVersions` | src/service/weight-change.service.ts:162-191 | lists exactly the model's versions that pass the date and count filters, each once, highest number first |
| `Moderation.AssertOwner` | src/controller/weight-change.controller.ts:20-25 | succeeds exactly for an existing model of the caller; 404 for a missing model, 401 for someone else's |
| `Moderation.ApproveAsOwner` | src/controller/weight-change.controller.ts:20-25 | an approval through the controller succeeds only for the model's owner |
| `Moderation.RejectAsOwner` | src/controller/weight-change.controller.ts:20-25 | a rejection through the controller succeeds only for the model's owner |
| `Moderation.ApproveGenerationsAgree` | src/service/WeightChangeService.ts:44-90 | on a valid database the current and the draft service approve the same requests with the same outcome |
| `Moderation.RequestGenerationsAgree` | src/service/WeightChangeService.ts:18-37 | on a valid database both services store a proposal identically |
| `Simulation.SampleCountExact` | src/service/simulation/range-simulation.ts:47 | sample `k` is taken exactly when `start + k·step ≤ stop` |
| `Simulation.Execute` | src/service/simulation/range-simulation.ts:33-64 | the sampling loop returns the closed-form sweep: one sample per `start + k·step` up to `stop`, none when a bound is not a finite number |
| `Simulation.NonNumericSweepIsEmpty` | src/service/simulation/range-simulation.ts:42-45 | a bound that is not a finite number (`NonFinite`) yields no samples, whatever the graph; as written this holds for NaN, see "Left out" for the infinities |
| `Simulation.SweepSamples` | src/service/simulation/range-simulation.ts:47-61 | the sweep has the sample count, weights `Round2(start + k·step)` in ascending order, and each sample's route from the finder on the modified graph |
| `Simulation.MissingRowThrows` | src/service/simulation/range-simulation.ts:48-49 | a base graph without the row `from` makes a non-empty sweep throw |
| `Simulation.SampleGraphOnlyChangesEdge` | src/service/simulation/range-simulation.ts:48-49 | each sample's graph differs from the base graph in the one weight, which reads the rounded sample weight |
| `Simulation.BestIsFirstMinimum` | src/service/simulation/simulation-facade.ts:49 | the best result is a result no other beats, and every earlier one costs strictly more; none only for no results |
| `Simulation.TieGoesToFirst` | src/service/simulation/simulation-facade.ts:49 | of two samples with equal cost the earlier one is reported |
| `Simulation.ResultRows` | src/service/simulation/simulation-facade.ts:31-44 | one row per result, in order, under the simulation's id, with weight, path and cost copied |
| `Simulation.SaveRows` | src/repository/simulation.repository.ts:33-44 | saving succeeds exactly when there is nothing to save, or the simulation exists and every result found a route; it then appends exactly the result rows; any failure is the DB error 500 "Failed to save simulation result" |
| `Simulation.RunSimulation` | src/service/simulation/simulation-facade.ts:11-55 | fails with "Failed to save simulation" unless model and user exist; succeeds exactly when they exist, the sweep runs and every sample found a route, and otherwise fails with "Failed to save simulation result" after a successful sweep; on success records the header and one row per result and returns the results and the first cheapest |
| `Simulation.SimulateEdge` | src/service/simulation.service.ts:20-76 | 400 for a bad range (an infinite bound counts as bad, see "Findings"), 404 for a model without a version, 400 for an edge missing from the latest graph, all before any write; succeeds exactly when none of these applies, the user exists and every sample of the sweep on the latest version found a route |
| `Simulation.AsNum` | src/service/simulation.service.ts:20-26 | `Number.isFinite` keeps exactly the finite numbers, with their value |
| `Simulation.FiniteLoopWeight` | src/service/simulation/range-simulation.ts:47 | with finite bounds the loop variable after `k` iterations is `start + k·step` |
| `Simulation.FiniteSweepRuns` | src/service/simulation/range-simulation.ts:47 | with finite bounds and a positive step the loop runs iteration `k` exactly when `k` is below the sample count the sweep is built on |
| `Simulation.InfiniteBoundNeverEnds` | src/service/simulation.service.ts:20-32 | `stop = Infinity` with a finite start, or `start = -Infinity` with a finite stop, passes the range check as written, and the loop guard then holds at every iteration |
| `Simulation.InfiniteStepSamplesOnce` | src/service/simulation/range-simulation.ts:47 | `step = Infinity` between finite bounds passes the range check as written and the loop runs exactly one iteration |
| `Simulation.RangeChecksAgreeOnFinite` | src/service/simulation.service.ts:20-32 | the model's range check implies the check as written, agrees with it on finite bounds, and both refuse a NaN |
| `Simulation.CheckedRangeTerminates` | src/service/simulation.service.ts:20-32 | a range the model's check admits has finite bounds and a positive step, and its loop runs exactly the iterations below the sample count, at least one |
| `Simulation.SimulatesCurrentVersion` | src/service/simulation.service.ts:34-56 | under the invariant a model always has a latest version, the one numbered by its `current_version_model` |
| `Simulation.RecordValid` | src/service/simulation/simulation-facade.ts:16-44 | recording a sweep's header and rows keeps the invariant |
| `Schemas.GraphSchemasDiffer` | src/common/util/validation-schema.ts:31-62 | the two graph schemas differ exactly by the size rule: the empty graph and a node without edges pass only `graphSchema` |
| `Schemas.SchemaAndPrice` | src/common/util/validation-schema.ts:41-53 | a graph that passed the size rule always has a positive price; `graphSchema` admits the empty graph, priced at zero |
| `Schemas.ListedEdgesAreTruthy` | src/common/util/validation-schema.ts:57-62 | in a validated graph the truthy-edge check is the same as the edge being present, with a positive weight |
| `Schemas.ValidatedBodyPassesRange` | src/common/util/validation-schema.ts:158-166 | a body that passed `simulateBody` passes the service's range check and takes at least one sample |
| `Schemas.SimulateSchemasDiffer` | src/common/util/validation-schema.ts:109-115 | the two simulation schemas disagree only on a step equal to `stop` |
| `Schemas.PositiveWeightStoredNonNegative` | src/common/util/validation-schema.ts:122-126 | a positive proposal is stored non-negative, but a weight below 0.005 is stored as 0 |
| `Schemas.ParseStatus` | src/common/util/validation-schema.ts:128-132 | a status name is accepted exactly when it is one of the three |
| `Schemas.StatusNamesRoundTrip` | src/common/util/validation-schema.ts:128-132 | names and statuses correspond one to one |
| `Schemas.RejectReasonBounds` | src/common/util/validation-schema.ts:139-141 | an accepted reason has 2 to 500 characters; within the Basic Multilingual Plane exactly the reasons of 3 to 500 characters are accepted |
| `Schemas.Utf16Length` | src/common/util/validation-schema.ts:140 | the length Joi measures lies between the number of characters and twice that |
| `Schemas.Utf16LengthOf` | src/common/util/validation-schema.ts:140 | a string within the Basic Multilingual Plane has as many code units as characters, one wholly outside it twice as many |
| `Schemas.RejectCountsCodeUnits` | src/common/util/validation-schema.ts:140 | "no" is refused and "bad" accepted; 500 `x` pass and 501 do not; two emoji pass, 250 pass and 251 do not |

## Left out

- HTTP routing, controllers other than the ownership gate, authentication, JWT, password hashing,
  logging, Swagger and the error middleware are left out: they carry no state the core depends on.
  The middleware answers any error without a status with 500.
- Concurrency and row locks are left out. Each transaction is modelled as one atomic step, so the
  pessimistic lock of `applyBalanceWithLock` is implicit and its 409 branch is provably dead.
- node-dijkstra is a parameter `finder`, a function from graph, origin and goal to an optional route.
  Its behaviour on unreachable goals and the timing it reports (`execTime`, `execTimeMs`) are not modelled.
- The observer notifications and the command wrappers do nothing the result depends on. They are left out.
- Timestamps are a parameter `now`. `updated_at` columns are not stored. Dates in filters are integers,
  and an invalid date is not modelled.
- `Moderation.ApproveRequest`: the smoothing factor is a parameter, stored as the integer in hundredths
  where the code stores `String(alpha)`. As written the factor is never set; "Findings" records that, and
  `Moderation.ApproveUnconfigured` models it. `Moderation.ApproveEdge`, `Moderation.ApproveSucceeds` and
  `Moderation.ApproveBlends` describe the approval with the factor set.
- Floating point is not modelled. Amounts are exact in ten-thousandths, so the sweep's `1e-9`
  tolerance and `toFixed(10)` have nothing to correct. `precision(6)` of the weight schemas is not checked.
- Infinite sweep bounds reach the service. `JSON.parse` reads `1e999` as `Infinity`, and the
  controller's `Number("Infinity")` gives one too (src/controller/simulation.controller.ts:27-45);
  both it and the service test `isNaN` only. The `simulateBody` schema, which would refuse them, is
  mounted by no router in src/router. The model covers the range check and the loop on infinities
  (`Simulation.RangeAccepted`, `Simulation.Runs`), but not the sweep's results on them:
- `Simulation.Execute`: its bounds are `Num`, so an infinite bound reads as NaN and gives no samples.
  As written `stop = Infinity` or `start = -Infinity` makes the loop run forever
  (`Simulation.InfiniteBoundNeverEnds`), and `step = Infinity` takes one sample at `start`
  (`Simulation.InfiniteStepSamplesOnce`). Samples at an infinite weight are not modelled.
- `Simulation.NonNumericSweepIsEmpty`: "no samples" holds as written for a NaN bound only, for the same
  reason.
- `Simulation.SimulateEdge`: refuses an infinite bound with 400, as the evidently intended check does;
  the check as written lets it through ("Findings").
- On the direct path into `RangeSimulation.execute` a numeric string bound is treated like the number
  it denotes (`Number(args.start)`); on the service path (src/service/simulation.service.ts:20-32) a
  non-number bound is refused with 400, which `Simulation.SimulateEdge` models.
- A NaN request id is not modelled: request ids are integers.
- Key order is not modelled as JavaScript and PostgreSQL keep it. An object lists integer-like keys
  first in ascending order, and JSONB (src/model/GraphVersion.ts:46) stores keys shorter first, then
  in byte order, so the graph a sweep or an approval reads back is in JSONB order. The model keeps
  insertion order throughout. Counts and weights do not depend on the order; only the choice
  node-dijkstra makes between equally cheap routes can.
- Keys inherited from `Object.prototype` are not modelled. The source's checks `graph[from][to]` and
  `Number(graph[from]?.[to])` also find names such as `toString`, `constructor` or `length` through the
  prototype chain; the model looks up own keys only. The members whose contracts this affects:
- `Graphs.HasTruthyEdge`: as written, for a node `A` the edge `A -> toString` is truthy, because
  `graph.A.toString` is a function; the model says it is absent.
- `Moderation.RequestWeightChange`: stores a proposal on such an inherited edge where the model answers
  400 "Edge not found in graph".
- `Moderation.RequestWeightChangeValid`: its success condition is stated for own keys; the proposal on
  `A -> toString` that the source stores is outside it.
- `Moderation.ApproveEdge`: `Number(graph.constructor.length)` is 1, so a request on
  `constructor -> length` is approved by the source and refused with 400 by the model; for
  `A -> toString` both refuse, since `Number` of a function is NaN.
- `Moderation.ApproveSucceeds`: its success condition likewise covers own keys only.
- `Simulation.SimulateEdge`: the edge check passes for an inherited edge. For `A -> toString` the sweep
  then gives the copied row `A` an own `toString` edge and runs; for `constructor -> length` it assigns
  to the read-only `Object.length` and throws. The model answers 400 for both.
- `Schemas.ListedEdgesAreTruthy`: in a validated graph the truthy check and presence agree for own keys;
  an inherited name is truthy without being present.
- The reason enum values are abstract tags; their strings are not part of this model.
- `Sorting.OrderByDesc`: SQL leaves the order of rows with equal keys open; the model keeps them in
  id order, and the contract states only the non-increasing order.
- `Moderation.ListRequests`: the draft `@/dao/WeightChangeDao` is not part of this model. The draft
  repository and service use it to create, list and find requests, and to approve and reject them
  (src/repository/WeightChangeRepository.ts:9-23, src/service/WeightChangeService.ts:85,100). The model
  takes it to behave like src/dao/weight-change.dao.ts in all five.
- `Schemas.RejectBody`: Joi counts UTF-16 code units, which `Schemas.Utf16Length` models; lone
  surrogates cannot occur in a Dafny string and are not modelled.
- `Simulation.RunSimulation`: the source saves the header and each result row outside any transaction.
  A failed sweep or a refused row is modelled as discarding the header and the rows saved before it, as
  if the facade were transactional; as written they stay in the database.
- `ModelFacade.ExecuteAndCharge`: the price is reported as `chargeTokens`, but neither facade debits it.
  The model follows the code.
- The recharge schema (src/common/util/validation-schema.ts:19-28), the date, id and pagination
  schemas and the user schemas are left out. They guard controllers outside the core.
- ModelFacade.ts imports a builder and a validation chain under PascalCase names that are not part of
  this model. The kebab-case builder and chain stand in for them.
- The draft facade and service are modelled with the functions of src/repository/ModelRepository.ts.
  As written they call `new ModelRepository()` (src/service/model/ModelFacade.ts:74,
  src/service/WeightChangeService.ts:12), but that file exports no class, so both modules would throw
  when loaded. A failure at load time has no counterpart in this model.
- `ModelFacade.CreateModelLive`: user ids are integers in both generations. The PascalCase
  `GraphUser` that src/model/index.ts:27 initialises declares `id_user` as a UUID
  (src/model/GraphUser.ts:44-47). With such an id, `getModel(ownerUserId)` reaches the `Number.isFinite`
  guard of src/dao/ModelDao.ts:20-23 and fails with a plain 400 "Invalid model id", not the 404
  "User not found" the model gives. No user can create a model through the live facade either way.
- The current model repository obtains its DAO from `ModelFactoryDao.createModelDao()`
  (src/repository/model.repository.ts:6), which returns the DAO of src/dao/model.dao.ts
  (src/dao/model-factory.dao.ts:9-11). The model uses that DAO directly.
- Column widths are not modelled. A `DECIMAL(12,2)` column holds less than 10^10 in magnitude and a
  `DECIMAL(12,4)` column less than 10^8; PostgreSQL refuses a larger value with a numeric overflow.
  In the model amounts are unbounded. So `Ledger.SetNewBalance`, `UserRepository.UpdateTokensByEmail`,
  `Moderation.CreateRequestRow` and `Simulation.SaveRows` can succeed on a balance or weight the
  database would refuse.
- `ErrorEnum` (src/common/enums.ts:69-95) declares no `DB_ERROR`, so that error's `type` is `undefined`
  at run time and its table row is keyed "undefined". The model gives the error the kind `DbError`.
  Status and message agree, because every call site overrides both.
- `UserRepository.CreateDraft`: the initial balance is an integer, so `toFixed(2)` of NaN, which passes
  the string "NaN" to the database (src/repository/UserRepository.ts:73), is not modelled.

## Findings

| source | as written | input that shows it | evidently intended | confidence | as-written member | corrected member |
|---|---|---|---|---|---|---|
| src/service/model/ModelFacade.ts:99-100 | the owner is looked up with `getModel(ownerUserId)`, a model lookup, and a miss throws "User not found" | a database with user 1 and no models; user 1 creates a model with a one-node graph: 404 "User not found" with integer user ids, 400 "Invalid model id" with the UUID ids of src/model/GraphUser.ts:44-47 | look the owner up as a user | high, not executed | `ModelFacade.CreateModelLiveRefusesFirstModel` (on `ModelFacade.CreateModelLive`) | `ModelFacade.CreateModelLiveFixedSucceeds` (on `ModelFacade.CreateModelLiveFixed`) |
| src/repository/UserRepository.ts:67-75 | the initial balance is stored via `toFixed(2)` with no sign check, and the draft DAO adds none | initial balance −5: the user is stored with balance −5.00 | refuse a negative balance with 400, as the current DAO does | medium, not executed | `UserRepository.CreateDraftStoresNegative` (on `UserRepository.CreateDraft`) | `UserRepository.CreateDraftCheckedValid` (on `UserRepository.CreateDraftChecked`) |
| src/repository/user.repository.ts:73-90 | the user insert and the seed balance run in separate transactions; the insert checks the rounded value, the seed the unrounded one | initial balance −0.004: rounds to "-0.00" and is inserted, then the seed refuses −0.004 with 400 and the user row stays | both writes in one transaction, so a failure leaves no user behind | medium, not executed | `UserRepository.CreateLeavesUserOnFailure` (on `UserRepository.Create`) | `UserRepository.CreateAtomicValid` (on `UserRepository.CreateAtomic`) |
| src/service/weight-change.service.ts:64 | alpha is read from `environment.graphAlphaKey`, which the configuration object (src/config/enviroment.ts:20-52) and its type do not define; so alpha is `undefined`, the blend is NaN, and the version row gets alpha "undefined", which the `DECIMAL(3,2)` column refuses | any pending request on an edge of the latest graph, approved by the owner: 500 "Error creating version", and the request stays pending | read a configured alpha with 0 < alpha < 1, as the comment at src/service/WeightChangeService.ts:48 says, so the approval records the blended weight | high, not executed | `Moderation.UnconfiguredNeverApproves` (on `Moderation.ApproveUnconfigured`) | `Moderation.ApproveBlends` (on `Moderation.ApproveRequest`) |
| src/service/simulation.service.ts:20-32 | the range check tests `isNaN` only, so an infinite bound passes; with `stop = Infinity` the loop `w <= stop + 1e-9` (src/service/simulation/range-simulation.ts:47) never ends, after the header row has been saved, and being synchronous it blocks the server | body `{"start": 1, "stop": 1e999, "step": 1, ...}` on an existing edge: `JSON.parse` gives `stop = Infinity`, the check passes, the sweep never returns | refuse non-finite bounds with 400 "Invalid simulation range", as `Number.isFinite` would | high, not executed | `Simulation.InfiniteBoundNeverEnds` (on `Simulation.RangeAccepted` and `Simulation.Runs`) | `Simulation.CheckedRangeTerminates` (on `Simulation.ValidRange`, which `Simulation.SimulateEdge` uses) |
