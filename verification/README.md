# authnz in Dafny

A model of the core of authnz, an authorization service. The service
answers one question: given a subject and a policy, is access PERMITTED or
DENIED? The answer depends on the attributes the subject holds through its
groups. The model covers two parts.

- **The policy engine.** A recursive interpreter evaluates a policy's
  condition tree (HasAttribute, EvaluateAttribute, Negation, And, Or) against
  the attribute map of the subject's merged groups. It asks an ordered list
  of condition processors in turn and stops at the first one that decides or
  fails.
- **The relationship manager.** Subjects, groups, policies and contracts live
  in four SQL tables. A contract binds one subject to one group, and handlers
  keep these tables consistent inside transactions: adding subjects with
  attributes, creating groups for subjects, deleting a subject together with
  its contracts and "zombie" groups, and duplicating and deleting groups.

How the database is modelled:

- **Tables.** Each table is a sequence of rows keyed by `id`, held in a
  `Database` object. Every SQL statement the Go code issues is a pure
  function of the tables (`GetStmt`, `PutStmt`, `DeleteStmt`, `ListStmt`,
  `DeleteWhereStmt`, …).
- **Methods.** The store and handler methods update the `Database` object in
  place and are proved equal to those statement functions, or to composite
  specifications (`AddNewContractSpec`, `DeleteSubjectSpec`,
  `DeleteGroupSpec`, `AuthorizeSpec`).
- **Driver failures.** Any statement can fail. A fixed map `faults`, from the
  statement counter `issued` to an error message, says which statements fail
  and with what message.
- **Transactions.** A transaction takes a snapshot of the tables when it
  starts and puts the snapshot back when the callback returns an error.

Where the code departs from its evident design, the model follows the code, except for the sqlx run-time failures listed under "## Left out" (the non-pointer `Select` calls and the nil-pointer `Unmarshal`), which are given their evident meaning:

- The Or processor reads the And variant (internal/policy/engine.go:142).
  With the processor list `init` builds, an Or node is therefore never
  decided: it ends in the "no condition processor" error. It does not behave
  like And.
- The zombie-group check in DeleteSubject compares the remaining contract
  count with 1, not 0.
- The service's Authorize builds its engine with `NewEngine`, which never
  calls `init`.

Each of these is a finding below. Each is modelled as written, and next to it
is the evidently intended version with its property proved.

Modules: `Wrappers`, `Proto` (messages and their wire form), `Table`, `Db`,
`Groups` (group/type.go, group/merger.go), `PolicyEngine`, `EntityStore`
(pkg/store/sql_store.go), `GroupStore`, `PolicyStore`, `SubjectStore`,
`ContractStore`, `SubjectHandler`, `GroupHandler`, `Server`.

## Model

| member | source | states |
|---|---|---|
| Proto.UnmarshalGroup | internal/group/store.go:31-33 | parsing succeeds exactly on a group's wire form |
| Proto.UnmarshalPolicy | internal/policy/store.go:35-37 | parsing succeeds exactly on a policy's wire form |
| Proto.MarshalRoundTrip | internal/group/store.go:26-61 | unmarshal(marshal(x)) == x for groups and policies |
| Table.Where | internal/contract/store.go:84-88 | a `SELECT … WHERE` returns exactly the rows satisfying the filter, each taken from the table |
| Table.Find | pkg/store/sql_store.go:30-40 | a row is found exactly when its id is stored, and the value found is that row's |
| Table.Upsert | pkg/store/sql_store.go:75-77 | `INSERT … ON CONFLICT (id) DO UPDATE` adds the id to the key set; a new id is appended |
| Table.UpsertFrame | pkg/store/sql_store.go:75-77 | an upsert keeps every row with another id and keeps the primary key unique |
| Table.FindAfterUpsert | pkg/store/sql_store.go:75-77 | reading an id after upserting it gives the stored value |
| Table.UpsertTwice | pkg/store/sql_store.go:75-77 | two upserts under one id equal the second alone |
| Table.RemoveId | pkg/store/sql_store.go:42-48 | `DELETE … WHERE id = $1` removes exactly that id |
| Table.RemoveIdCount | pkg/store/sql_store.go:42-48 | the deleted row count is positive exactly when the id was stored |
| Table.WhereCount | internal/contract/store.go:50-56 | a `DELETE … WHERE` affects rows exactly when some row fails the kept filter |
| Db.Database.NewUuid | pkg/store/sql_store.go:55-62 | a generated id is non-empty and used by no row of any table |
| EntityStore.CheckErrorForRowsAffected | pkg/store/sql_store.go:83-94 | nil exactly when a result exists, carries no error and has a positive row count; otherwise the nil-result, driver or caller-supplied error |
| EntityStore.GetStmt | pkg/store/sql_store.go:30-40 | a driver error is returned as is; otherwise Ok exactly when the id is stored, else "no record found for <id>" |
| EntityStore.PutStmt | pkg/store/sql_store.go:50-77 | on success the id is in the table; a driver error leaves the table unchanged |
| EntityStore.DeleteStmt | pkg/store/sql_store.go:42-48 | removes exactly the id; succeeds exactly when it was stored, else the caller's not-found message with the table unchanged |
| EntityStore.GetAfterPut | pkg/store/sql_store.go:30-77 | Get after Put returns the entity just stored |
| EntityStore.GetOtherAfterPut | pkg/store/sql_store.go:30-77 | Put changes no other id's Get |
| EntityStore.PutTwice | pkg/store/sql_store.go:50-77 | Put is idempotent under one id and keeps the key unique |
| EntityStore.GetAfterDelete | pkg/store/sql_store.go:30-48 | after Delete the id is not found, and a second Delete reports "<id> is not found" |
| EntityStore.SQLPBEntityStore.Get | pkg/store/sql_store.go:30-40 | one statement, whose result is GetStmt on the table |
| EntityStore.SQLPBEntityStore.Put | pkg/store/sql_store.go:50-73 | an empty id is replaced by a fresh one and a given id is kept; the table becomes PutStmt's; the payload is kept |
| EntityStore.SQLPBEntityStore.Delete | pkg/store/sql_store.go:42-48 | the table becomes DeleteStmt's and the error is DeleteStmt's |
| GroupStore.GetGroupStmt | internal/group/store.go:26-34 | a driver error or missing id fails; a group returned is stored under that id |
| GroupStore.GetAfterPutGroup | internal/group/store.go:26-61 | Get after Put returns the group just stored |
| GroupStore.BulkGetGroupsStmt | internal/group/handler.go:85 | no ids means no query and an empty result; otherwise a driver error fails, and the result is no longer than the table |
| GroupStore.DecodeGroups | internal/contract/store.go:72-81 | decoding succeeds exactly when every row is a group, and each result is its row's group |
| GroupStore.BulkGetReturnsListed | internal/group/handler.go:85 | every group returned is stored under one of the requested ids |
| GroupStore.BulkGetReturnsEveryListed | internal/group/handler.go:85 | conversely, every stored group whose id is requested is returned |
| GroupStore.SQLGroupStore.Get | internal/group/store.go:26-34 | one statement, equal to GetGroupStmt |
| GroupStore.SQLGroupStore.Put | internal/group/store.go:36-61 | the attributes are kept; an empty id is replaced by a fresh one; the groups table becomes PutStmt's |
| GroupStore.SQLGroupStore.Delete | internal/group/store.go:63-65 | the groups table becomes DeleteStmt's with "<id> is not found" |
| GroupStore.SQLGroupStore.BulkGet | internal/group/handler.go:85 | equal to BulkGetGroupsStmt; no statement for an empty id list |
| PolicyStore.GetPolicyStmt | internal/policy/store.go:30-38 | a driver error or missing id fails; a policy returned is stored under that id |
| PolicyStore.GetAfterPutPolicy | internal/policy/store.go:30-65 | Get after Put returns the policy just stored |
| PolicyStore.SQLPolicyStore.Get | internal/policy/store.go:30-38 | one statement, equal to GetPolicyStmt |
| PolicyStore.SQLPolicyStore.Put | internal/policy/store.go:40-65 | the condition is kept; an empty id is replaced by a fresh one; the policies table becomes PutStmt's |
| PolicyStore.SQLPolicyStore.Delete | internal/policy/store.go:67-69 | the policies table becomes DeleteStmt's |
| SubjectStore.GetSubjectStmt | internal/subject/store.go:37-44 | Ok exactly when the id is stored (no fault), with that row's user id |
| SubjectStore.BulkGetStmt | internal/subject/store.go:46-62 | corrected bulk get: exactly the stored subjects whose id is requested, each with its own user id |
| SubjectStore.BulkGetAsWritten | internal/subject/store.go:46-62 | as written: every subject returned carries its id as its user id |
| SubjectStore.BulkGetIdsAgree | internal/subject/store.go:57-60 | the written and corrected bulk gets fail together and return the same ids |
| SubjectStore.BulkGetFound | internal/subject/store.go:46-62 | a successful bulk get returns one subject per stored row whose id is requested, in table order, and never the same id twice |
| SubjectStore.BulkGetLosesUserId | internal/subject/store.go:59 | a stored subject (s1, u1) comes back as (s1, s1) |
| SubjectStore.PutSubjectStmt | internal/subject/store.go:68-86 | on success the id is in the table; a driver error leaves it unchanged |
| SubjectStore.GetAfterPutSubject | internal/subject/store.go:37-86 | Get after Put returns the subject; other ids are unaffected; the key stays unique |
| SubjectStore.SQLSubjectStore.TxGet | internal/subject/store.go:37-44 | one statement, equal to GetSubjectStmt |
| SubjectStore.SQLSubjectStore.TxBulkGet | internal/subject/store.go:46-62 | equal to BulkGetAsWritten; no statement for an empty id list |
| SubjectStore.SQLSubjectStore.TxPut | internal/subject/store.go:68-86 | the user id is kept; an empty id is replaced by a fresh one; the subjects table becomes PutSubjectStmt's |
| SubjectStore.SQLSubjectStore.TxDelete | internal/subject/store.go:92-98 | the subjects table becomes DeleteStmt's with "subject not found for id <id>" |
| ContractStore.ListStmt | internal/contract/store.go:84-88 | fails exactly on a driver error; otherwise exactly the contracts matching the filter |
| ContractStore.DeleteWhereStmt | internal/contract/store.go:50-56 | removes exactly the matching rows; succeeds exactly when one matched, else the caller's message |
| ContractStore.AddNewContractSpec | internal/contract/store.go:28-48 | an existing (subject, group) pair always fails; a failure changes nothing; success appends exactly the new contract |
| ContractStore.InsertKeepsValid | internal/contract/store.go:28-48 | inserting a fresh id for a pair not yet bound keeps keys and pairs unique |
| ContractStore.AddNewContractKeepsPairsUnique | internal/contract/store.go:28-48 | AddNewContract preserves "at most one contract per (subject, group)" |
| ContractStore.AddNewContractTwice | internal/contract/store.go:33-37 | after one successful add, adding the same pair again fails with "already exists" |
| ContractStore.AddNewContractFailsOnlyOnFault | internal/contract/store.go:28-48 | for a pair not yet bound, the add fails only on a driver fault, at the listing or at the insert |
| ContractStore.ListGroupsStmt | internal/contract/store.go:66-82 | a driver error fails; at most one group per stored group row |
| ContractStore.ListGroupsAreTheSubjects | internal/contract/store.go:66-82 | every group returned is stored and bound to the subject by some contract |
| ContractStore.SubjectsGroupsAreListed | internal/contract/store.go:66-82 | conversely, every stored group that one of the subject's contracts names is returned |
| ContractStore.ContractStore.ListAllContractsBySubject | internal/contract/store.go:84-88 | one statement, equal to ListStmt with `subject_id = $1` |
| ContractStore.ContractStore.ListContractsByGroupID | internal/subject/handler.go:60 | one statement, equal to ListStmt with `group_id = $1` |
| ContractStore.ContractStore.AddNewContract | internal/contract/store.go:28-48 | equal to AddNewContractSpec with a fresh, non-empty id |
| ContractStore.ContractStore.DeleteContract | internal/contract/store.go:50-56 | the contracts table becomes DeleteWhereStmt's for the pair |
| ContractStore.ContractStore.DeleteContractByContractID | internal/contract/store.go:58-64 | the contracts table becomes DeleteStmt's for the id |
| ContractStore.ContractStore.DeleteContractsByGroupID | internal/group/handler.go:57-58 | every contract of the group is removed; zero rows gives a message starting "not found" |
| ContractStore.ContractStore.ListGroupsBySubjectID | internal/contract/store.go:66-82 | one statement, equal to ListGroupsStmt |
| Groups.AttributesToMap | internal/group/type.go:19-25 | the loop builds Projection (later keys overwrite earlier ones) and its key set is the set of keys listed |
| Groups.FromPB | internal/group/type.go:12-17 | keeps the id; the map's keys are exactly the attribute keys |
| Groups.ProjectionKeys | internal/group/type.go:19-25 | the projected key set is the set of listed keys |
| Groups.ProjectionAppend | internal/group/type.go:19-25 | projecting a concatenation overlays the second projection on the first |
| Groups.ProjectionLastWins | internal/group/type.go:21-23 | a key's value is the value of its last occurrence |
| Groups.MergeGroups | internal/group/merger.go:7-13 | the merged group has no id and the attributes of all groups, concatenated in order |
| Groups.FlattenAppend | internal/group/merger.go:7-13 | merging distributes over concatenation of group lists |
| Groups.FlattenLength | internal/group/merger.go:7-13 | the merged length is the sum of the lengths |
| Groups.KeyAbsentFromFlatten | internal/group/merger.go:7-13 | a key no group carries is absent from the merge |
| Groups.EffectiveValueFromLastGroup | internal/group/merger.go:7-13 | after merging and projecting, a key's value comes from the last group that carries it |
| PolicyEngine.Compare | internal/policy/engine.go:93-100 | strings.Compare: in -1..1, zero exactly on equal strings |
| PolicyEngine.CompareAntisymmetric | internal/policy/engine.go:93-100 | Compare(a, b) == -Compare(b, a) |
| PolicyEngine.Contains | internal/policy/engine.go:91-92 | strings.Contains: the substring occurs at some offset |
| PolicyEngine.EvalOpMeaning | internal/policy/engine.go:87-104 | EQ is equality; GTE is GT or EQ; LTE is LT or EQ; GT is the converse of LT; an unknown op is false |
| PolicyEngine.AllPresent | internal/policy/engine.go:63-67 | true exactly when every listed key is present |
| PolicyEngine.EvaluateCondition | internal/policy/engine.go:43-56 | a result is UNKNOWN with an error, or PERMITTED/DENIED without one; no processors means the no-processor error |
| PolicyEngine.Run | internal/policy/engine.go:45-46 | a processor passes the node on or returns a final result |
| PolicyEngine.ShortCircuit | internal/policy/engine.go:133-151 | the child loop returns the fallback, an error, or the stop verdict |
| PolicyEngine.FirstDecisiveProcessor | internal/policy/engine.go:45-53 | the first processor that does not pass the node on settles it |
| PolicyEngine.NoDecisiveProcessor | internal/policy/engine.go:54-55 | a node every processor passes on ends in the no-processor error |
| PolicyEngine.Dispatch | internal/policy/engine.go:26-34 | which installed processor settles each kind of node |
| PolicyEngine.HasAttributeVerdict | internal/policy/engine.go:58-69 | HasAttribute is PERMITTED exactly when all keys are present, else DENIED |
| PolicyEngine.EvaluateAttributeVerdict | internal/policy/engine.go:71-85 | PERMITTED exactly when the key is present and the comparison holds |
| PolicyEngine.NegationVerdict | internal/policy/engine.go:106-126 | a missing inner condition is an error; otherwise the inner verdict is swapped and an error passes through |
| PolicyEngine.DoubleNegation | internal/policy/engine.go:106-126 | negating twice gives back the original result |
| PolicyEngine.AndVerdict | internal/policy/engine.go:128-139 | And is PERMITTED exactly when every child is PERMITTED |
| PolicyEngine.AndStopsAtFirst | internal/policy/engine.go:133-136 | And returns the result of its first child that is not PERMITTED |
| PolicyEngine.OrAsWrittenFails | internal/policy/engine.go:141-152 | under the list `init` builds, every Or node ends in the no-processor error |
| PolicyEngine.OrProcessorNeverDenies | internal/policy/engine.go:141-152 | the written Or processor never answers DENIED and passes on every Or node |
| PolicyEngine.IntendedOrVerdict | internal/policy/engine.go:141-152 | corrected Or is DENIED exactly when every child is DENIED |
| PolicyEngine.IntendedOrStopsAtFirst | internal/policy/engine.go:146-149 | corrected Or returns its first child that is not DENIED |
| PolicyEngine.InstalledEngineDecides | internal/policy/engine.go:26-56 | an installed engine decides every complete condition (with Or only under the correction) without error |
| PolicyEngine.CorrectionOnlyAffectsOr | internal/policy/engine.go:141-152 | on trees without Or nodes the written and corrected lists agree |
| PolicyEngine.Examples | internal/policy/engine.go:58-139 | worked verdicts for a group {role: admin, level: 5} |
| PolicyEngine.CheckPolicy | internal/policy/engine.go:36-41 | a policy without a condition fails with "empty condition for policy <id>"; every result is final |
| PolicyEngine.Engine.Init | internal/policy/engine.go:26-34 | installs the five processors in order |
| PolicyEngine.Engine.Check | internal/policy/engine.go:36-41 | CheckPolicy with the engine's list; with no processors it always fails |
| PolicyEngine.NewEngine | internal/policy/engine.go:22-24 | a fresh engine with no processors |
| SubjectHandler.CleanupStep | internal/subject/handler.go:55-72 | one contract's cleanup removes that contract (unless its delete fails) and touches only that contract and its group |
| SubjectHandler.Cleanup | internal/subject/handler.go:55-73 | the cleanup loop leaves subjects and policies alone |
| SubjectHandler.CleanupKeepsContracts | internal/subject/handler.go:55-73 | the cleanup removes only listed contracts and keeps every other one |
| SubjectHandler.CleanupKeepsGroups | internal/subject/handler.go:55-73 | the cleanup removes only groups that a listed contract names |
| SubjectHandler.CleanupRemovesContracts | internal/subject/handler.go:55-73 | with no driver fault in the loop, every listed contract is gone |
| SubjectHandler.DeleteSubjectSpec | internal/subject/handler.go:38-78 | succeeds exactly when the listing and the subject delete succeed; a failure rolls everything back; only that subject is removed |
| SubjectHandler.DeleteSubjectKeepsOtherContracts | internal/subject/handler.go:38-78 | the deletion removes only contracts of that subject; every other subject's contract is kept |
| SubjectHandler.DeleteSubjectKeepsOtherGroups | internal/subject/handler.go:38-78 | the deletion removes only groups that one of the subject's contracts names |
| SubjectHandler.DeleteSubjectRemovesContracts | internal/subject/handler.go:38-78 | after a fault-free delete no contract names the subject |
| SubjectHandler.IntendedDeleteSubjectKeepsReferences | internal/subject/handler.go:65 | with a zero-count check, every remaining contract still names a stored group |
| SubjectHandler.SharedGroupDeletedAsWritten | internal/subject/handler.go:65 | as written, deleting A deletes the group G that B still holds |
| SubjectHandler.SoleGroupOrphanedAsWritten | internal/subject/handler.go:65 | as written, deleting the only member of H leaves H behind |
| SubjectHandler.SharedGroupKeptIntended | internal/subject/handler.go:65 | with the zero-count check, G survives while B holds it |
| SubjectHandler.SoleGroupDeletedIntended | internal/subject/handler.go:65 | with the zero-count check, H is deleted with its last member |
| SubjectHandler.FindByUserStmt | internal/subject/handler.go:84-97 | exactly the subjects with that user id, or the driver error |
| SubjectHandler.Handler.AddSubject | internal/subject/handler.go:28-36 | fails exactly on a driver fault; on success appends a fresh subject with that user id |
| SubjectHandler.Handler.GetSubjectByID | internal/subject/handler.go:80-82 | equal to GetSubjectStmt |
| SubjectHandler.Handler.FindSubjectsByUserID | internal/subject/handler.go:84-97 | the conversion loop yields FindByUserStmt |
| SubjectHandler.Handler.DeleteSubject | internal/subject/handler.go:38-78 | new tables and error equal DeleteSubjectSpec as written |
| SubjectHandler.Handler.CreateGroupsForSubjects | internal/subject/handler.go:99-131 | a failure rolls back and is caused by a driver fault; success appends one fresh group and one contract per existing requested subject |
| SubjectHandler.Handler.AddSubjectWithAttributes | internal/subject/handler.go:133-156 | fails exactly on a driver fault, then rolls back; success appends a fresh subject, group and contract binding them |
| GroupHandler.DeleteGroupSpec | internal/group/handler.go:47-64 | a callback error rolls back; a commit removes exactly the group and, unless the contract delete faulted, every contract naming it |
| GroupHandler.IntendedDeleteGroupError | internal/group/handler.go:51-63 | the transaction's own result is nil exactly on a committed deletion |
| GroupHandler.DeleteGroupHidesFailure | internal/group/handler.go:63-64 | as written, a failed group delete is rolled back yet reported as success |
| GroupHandler.DeleteGroupReportsTolerated | internal/group/handler.go:57-64 | as written, a group without contracts is deleted yet the "not found" error is reported |
| GroupHandler.GetGroupsBySubjectSpec | internal/group/handler.go:70-89 | reads only; a failed listing is returned as is |
| GroupHandler.GetGroupsBySubjectAgrees | internal/group/handler.go:70-89 | without faults, the group handler and the contract store return the same groups for a subject |
| GroupHandler.Handler.CreateGroup | internal/group/handler.go:21-27 | fails exactly on a driver fault, with tables unchanged; success upserts the group with the id rule |
| GroupHandler.Handler.UpdateGroup | internal/group/handler.go:29-35 | as CreateGroup; a given id replaces that row |
| GroupHandler.Handler.DuplicateGroup | internal/group/handler.go:37-45 | a missing group fails with "no record found"; success appends a copy under a fresh id with the same attributes |
| GroupHandler.Handler.DeleteGroup | internal/group/handler.go:47-64 | new tables equal DeleteGroupSpec's; the error reported is the captured one |
| GroupHandler.Handler.GetGroupByID | internal/group/handler.go:66-68 | equal to GetGroupStmt |
| GroupHandler.Handler.GetGroupsBySubjectID | internal/group/handler.go:70-89 | the id-collecting loop and bulk get yield GetGroupsBySubjectSpec |
| Server.AuthorizeSpec | internal/server/server.go:45-57 | read failures carry their prefix; otherwise the engine's final outcome |
| Server.AuthorizeNeverDecides | internal/server/server.go:46 | with NewEngine's empty list, Authorize never returns a verdict without an error |
| Server.AuthorizeDecides | internal/server/server.go:45-57 | with processors installed, a complete stored condition is always decided |
| Server.Server.Authorize | internal/server/server.go:45-57 | equal to AuthorizeSpec with an empty processor list |

## Left out

- gRPC transport, configuration, migrations, the YAML loader and logging are not part of this model.
- Context arguments are unused and left out.
- Errors from `uuid.NewV4` and `proto.Marshal` are left out. A generated id is modelled as fresh, and marshalling as total.
- Wire bytes are not modelled. A payload is the message itself, tagged group or policy, so Unmarshal fails only on the wrong kind.
- SQL text is not modelled: `MakeInQueryClause`, query strings and `execUpdate` (which nothing calls).
- `SELECT` results come back in table order. SQL gives no order, and the model fixes one.
- Failures of begin, commit and rollback are not modelled. A transaction is a snapshot that is restored when the callback returns an error.
- Concurrency is not modelled. The race between AddNewContract's existence check and its insert needs two concurrent transactions, which one database object does not express.
- The Tx forms and the plain forms of a store method are one method. Statements issued inside a transaction are modelled on the same database object.
- TxListAllContractsBySubject, TxListContractsByGroupID, TxDeleteContract, TxAddNewContract, TxDeleteContractsByGroupID and the group store's TxGet, TxDelete and WithTx are not in the available source. They are modelled with the semantics of the plain forms shown.
- The group store's TxBulkGet has no plain form in internal/group/store.go. It is modelled on the subject store's TxBulkGet (internal/subject/store.go:46-62): no query for an empty id list, otherwise the stored rows whose id is requested, each decoded.
- ContractStore.ContractStore.DeleteContractsByGroupID: its zero-row message is assumed to start with "not found", which is the case DeleteGroup tolerates.
- `utils.ProcessWithErrors` and `store.WithSQLXTx` are not in the available source. They are modelled as "run in order, stop at the first error" and "commit on nil, roll back on error".
- ContractStore.ContractStore.ListGroupsBySubjectID and ListAllContractsBySubject pass a slice rather than a pointer to `Select`, and `proto.Unmarshal` into a nil pointer fails at run time. The model gives these calls their evident meaning: the rows selected and decoded.
- SubjectStore.SQLSubjectStore.TxGet selects into a single struct. It is modelled as a single-row get that fails with "no rows" when the id is absent.
- PolicyEngine.EvaluateCondition: the no-processor message omits the `cond.String()` suffix, since protobuf text rendering is not modelled.
- PolicyEngine.EvaluateCondition: the evaluation context argument `ctx` is unused by every processor and is left out.
- The Go code sets `Id` on the caller's message in place (group and subject Put, DuplicateGroup). The model returns the updated message, so aliasing between caller and callee is not captured.
- SubjectHandler.Handler.CleanupContracts, CleanupOne and AddContracts are the loop bodies of DeleteSubject and CreateGroupsForSubjects, written as helper methods. Their contracts are the specification functions above. StoreSubjectAndGroup is likewise the first two statements of AddSubjectWithAttributes, run inside its transaction.

## Findings

| source | as written | input that shows it | evidently intended | confidence | as-written member | corrected member |
|---|---|---|---|---|---|---|
| internal/server/server.go:46 | `NewEngine` returns an engine whose processor list is empty, because `init` is never called | any stored policy with a condition; the result is the "no condition processor" error | the engine installs its processors before Check | high, not executed | Server.AuthorizeNeverDecides | Server.AuthorizeDecides |
| internal/policy/engine.go:142 | OrProcessor reads `cond.GetAnd()` | `Or([HasAttribute([])])` ends in the no-processor error | read the Or variant: PERMITTED at the first PERMITTED child, DENIED when all deny | high, not executed | PolicyEngine.OrAsWrittenFails | PolicyEngine.IntendedOrVerdict |
| internal/subject/handler.go:65 | a group is deleted when one contract remains after the subject's contract is deleted | subjects A and B share group G; deleting A deletes G, and B's contract then names a missing group | delete the group when no contract remains | high, not executed | SubjectHandler.SharedGroupDeletedAsWritten | SubjectHandler.IntendedDeleteSubjectKeepsReferences |
| internal/subject/store.go:59 | TxBulkGet sets `UserId` to the subject's id | subject (s1, u1) comes back as (s1, s1) | `UserId: subject.UserID` | high, not executed | SubjectStore.BulkGetLosesUserId | SubjectStore.BulkGetStmt |
| internal/group/handler.go:51-63 | DeleteGroup ignores the transaction's result and reports the captured `err` | a failing group delete is rolled back but reported as success; a group without contracts is deleted but "not found" is reported | report the transaction's result | high, not executed | GroupHandler.DeleteGroupHidesFailure | GroupHandler.IntendedDeleteGroupError |
