/** The group handler: groups, their duplication and deletion, and the groups
    of a subject. */
module GroupHandler {
  import opened Wrappers
  import opened Table
  import opened Proto
  import opened Db
  import opened EntityStore
  import CS = ContractStore
  import GroupStore

  /** The prefix of a contract-deletion error that DeleteGroup tolerates. */
  const NotFoundPrefix := "not found"

  /** The two errors of DeleteGroup: the `err` variable the handler reports,
      and the result its transaction callback returns. */
  datatype DeleteGroupErrors = DeleteGroupErrors(captured: Option<Error>, txResult: Option<Error>)

  /** DeleteGroup: in one transaction, get the group, delete its contracts
      (tolerating an error that starts with "not found"), then delete the
      group; the transaction commits exactly when the callback returns nil. */
  function DeleteGroupSpec(t: Tables, n: nat, faults: map<nat, string>, groupId: string): (r: Effect<DeleteGroupErrors>)
    ensures r.result.txResult.Some? ==> r.tables == t
    ensures r.result.txResult.None? ==> groupId in Ids(t.groups) && Ids(r.tables.groups) == Ids(t.groups) - {groupId}
    ensures r.result.txResult.None? && n + 1 !in faults ==>
              forall i | 0 <= i < |r.tables.contracts| :: r.tables.contracts[i].value.groupId != groupId
    ensures n !in faults && groupId !in Ids(t.groups) ==>
              r == Effect(t, n + 1, DeleteGroupErrors(Some(Error(NoRecordFoundMessage(groupId))), Some(Error(NoRecordFoundMessage(groupId)))))
    ensures r.tables.subjects == t.subjects && r.tables.policies == t.policies
    ensures forall i | 0 <= i < |r.tables.contracts| :: r.tables.contracts[i] in t.contracts
    ensures forall i | 0 <= i < |t.contracts| :: t.contracts[i].value.groupId != groupId ==> t.contracts[i] in r.tables.contracts
    ensures forall i | 0 <= i < |r.tables.groups| :: r.tables.groups[i] in t.groups
    ensures forall i | 0 <= i < |t.groups| :: t.groups[i].id != groupId ==> t.groups[i] in r.tables.groups
  {
    match GroupStore.GetGroupStmt(t.groups, groupId, DriverFault(faults, n))
    case Err(e) => Effect(t, n + 1, DeleteGroupErrors(Some(e), Some(e)))
    case Ok(_) =>
      var (contracts, e1) := CS.DeleteWhereStmt(t.contracts, CS.NotGroup(groupId), CS.NoContractForGroupMessage(groupId),
                                                DriverFault(faults, n + 1));
      if e1.Some? && !HasPrefix(e1.value.message, NotFoundPrefix) then Effect(t, n + 2, DeleteGroupErrors(e1, e1))
      else
        var (groups, e2) := DeleteStmt(t.groups, groupId, NotFoundMessage(groupId), DriverFault(faults, n + 2));
        if e2.Some? then Effect(t, n + 3, DeleteGroupErrors(e1, e2))
        else Effect(t.(contracts := contracts, groups := groups), n + 3, DeleteGroupErrors(e1, None))
  }

  /** A failed read of the group ends DeleteGroup after one statement. */
  lemma DeleteGroupGetFails(t: Tables, n: nat, faults: map<nat, string>, groupId: string, e: Error)
    requires GroupStore.GetGroupStmt(t.groups, groupId, DriverFault(faults, n)) == Err(e)
    ensures DeleteGroupSpec(t, n, faults, groupId) == Effect(t, n + 1, DeleteGroupErrors(Some(e), Some(e)))
  {
  }

  /** A failed deletion of the group's contracts, other than a "not found",
      rolls DeleteGroup back after two statements. */
  lemma DeleteGroupContractsFail(t: Tables, n: nat, faults: map<nat, string>, groupId: string, g: Group,
                                 contracts: seq<CS.ContractRow>, e1: Error)
    requires GroupStore.GetGroupStmt(t.groups, groupId, DriverFault(faults, n)) == Ok(g)
    requires CS.DeleteWhereStmt(t.contracts, CS.NotGroup(groupId), CS.NoContractForGroupMessage(groupId),
                                DriverFault(faults, n + 1)) == (contracts, Some(e1))
    requires !HasPrefix(e1.message, NotFoundPrefix)
    ensures DeleteGroupSpec(t, n, faults, groupId) == Effect(t, n + 2, DeleteGroupErrors(Some(e1), Some(e1)))
  {
  }

  /** Past the contracts' deletion, DeleteGroup's outcome is that of the
      group's own deletion. */
  lemma DeleteGroupLastStep(t: Tables, n: nat, faults: map<nat, string>, groupId: string, g: Group,
                            contracts: seq<CS.ContractRow>, e1: Option<Error>, groups: seq<Row<Payload>>, e2: Option<Error>)
    requires GroupStore.GetGroupStmt(t.groups, groupId, DriverFault(faults, n)) == Ok(g)
    requires CS.DeleteWhereStmt(t.contracts, CS.NotGroup(groupId), CS.NoContractForGroupMessage(groupId),
                                DriverFault(faults, n + 1)) == (contracts, e1)
    requires e1.Some? ==> HasPrefix(e1.value.message, NotFoundPrefix)
    requires DeleteStmt(t.groups, groupId, NotFoundMessage(groupId), DriverFault(faults, n + 2)) == (groups, e2)
    ensures e2.Some? ==> DeleteGroupSpec(t, n, faults, groupId) == Effect(t, n + 3, DeleteGroupErrors(e1, e2))
    ensures e2.None? ==>
              DeleteGroupSpec(t, n, faults, groupId) == Effect(t.(contracts := contracts, groups := groups), n + 3, DeleteGroupErrors(e1, None))
  {
  }

  /** The error DeleteGroup evidently means to report: the transaction's own
      result, which is nil exactly when the deletion committed. */
  function IntendedDeleteGroupError(t: Tables, n: nat, faults: map<nat, string>, groupId: string): (r: Option<Error>)
    ensures r.None? ==> groupId in Ids(t.groups) && groupId !in Ids(DeleteGroupSpec(t, n, faults, groupId).tables.groups)
    ensures r.Some? ==> DeleteGroupSpec(t, n, faults, groupId).tables == t
  {
    DeleteGroupSpec(t, n, faults, groupId).result.txResult
  }

  const ExampleGroupPayload := GroupPayload(Group("G", []))

  /** As written, a failing delete of the group rolls everything back, yet
      DeleteGroup reports no error. */
  lemma DeleteGroupHidesFailure()
    ensures var t := Tables([], [Row("G", ExampleGroupPayload)], [], [Row("c1", Link("A", "G"))]);
            var r := DeleteGroupSpec(t, 0, map[2 := "connection reset"], "G");
            r.tables == t && r.result.captured == None
    ensures IntendedDeleteGroupError(Tables([], [Row("G", ExampleGroupPayload)], [], [Row("c1", Link("A", "G"))]), 0,
                                     map[2 := "connection reset"], "G") == Some(Error("connection reset"))
  {
    var t := Tables([], [Row("G", ExampleGroupPayload)], [], [Row("c1", Link("A", "G"))]);
    assert t.groups[0].id in Ids(t.groups);
    assert Find(t.groups, "G") == Some(ExampleGroupPayload);
    assert Where(t.contracts, CS.NotGroup("G")) == [] by {
      assert t.contracts[1..] == [];
    }
    assert exists i | 0 <= i < |t.contracts| :: !CS.NotGroup("G")(t.contracts[i]) by {
      assert !CS.NotGroup("G")(t.contracts[0]);
    }
  }

  /** As written, deleting a group that has no contract succeeds, yet
      DeleteGroup reports the tolerated "not found" error. */
  lemma DeleteGroupReportsTolerated()
    ensures var r := DeleteGroupSpec(Tables([], [Row("G", ExampleGroupPayload)], [], []), 0, map[], "G");
            r.tables == EmptyTables && r.result.captured == Some(Error(CS.NoContractForGroupMessage("G")))
    ensures IntendedDeleteGroupError(Tables([], [Row("G", ExampleGroupPayload)], [], []), 0, map[], "G") == None
  {
    var t := Tables([], [Row("G", ExampleGroupPayload)], [], []);
    assert t.groups[0].id in Ids(t.groups);
    assert Find(t.groups, "G") == Some(ExampleGroupPayload);
    assert HasPrefix(CS.NoContractForGroupMessage("G"), NotFoundPrefix);
    assert RemoveId(t.groups, "G") == [] by {
      assert t.groups[1..] == [];
    }
  }

  /** The group ids of a list of contracts, in the list's order. */
  function GroupIdsInOrder(cs: seq<CS.ContractRow>): (r: seq<string>)
    ensures |r| == |cs|
    ensures forall i | 0 <= i < |cs| :: r[i] == cs[i].value.groupId
  {
    seq(|cs|, i requires 0 <= i < |cs| => cs[i].value.groupId)
  }

  /** GetGroupsBySubjectID: in one transaction, list the subject's contracts,
      collect their group ids in order, and bulk-get those groups. */
  function GetGroupsBySubjectSpec(t: Tables, n: nat, faults: map<nat, string>, subjectId: string): (r: Effect<Result<seq<Group>>>)
    ensures r.tables == t
    ensures n in faults ==> r == Effect(t, n + 1, Err(Error(faults[n])))
  {
    match CS.ListStmt(t.contracts, CS.SubjectIs(subjectId), DriverFault(faults, n))
    case Err(e) => Effect(t, n + 1, Err(e))
    case Ok(contracts) =>
      var ids := GroupIdsInOrder(contracts);
      Effect(t, if ids == [] then n + 1 else n + 2, GroupStore.BulkGetGroupsStmt(t.groups, ids, DriverFault(faults, n + 1)))
  }

  /** When the driver fails neither statement, the group handler's
      GetGroupsBySubjectID and the contract store's ListGroupsBySubjectID
      return the same groups. */
  lemma GetGroupsBySubjectAgrees(t: Tables, n: nat, faults: map<nat, string>, subjectId: string)
    requires n !in faults && n + 1 !in faults
    ensures GetGroupsBySubjectSpec(t, n, faults, subjectId).result == CS.ListGroupsStmt(t, subjectId, None)
  {
    var listed := Where(t.contracts, CS.SubjectIs(subjectId));
    var ids := GroupIdsInOrder(listed);
    var boundIds := CS.GroupIdsOf(t.contracts, subjectId);
    forall x ensures x in ids <==> x in boundIds {
      if x in ids {
        var j :| 0 <= j < |ids| && ids[j] == x;
        assert listed[j] in t.contracts && CS.SubjectIs(subjectId)(listed[j]);
        var k :| 0 <= k < |t.contracts| && t.contracts[k] == listed[j];
      }
      if x in boundIds {
        var k :| 0 <= k < |t.contracts| && t.contracts[k].value.subjectId == subjectId && t.contracts[k].value.groupId == x;
        assert CS.SubjectIs(subjectId)(t.contracts[k]);
        var j :| 0 <= j < |listed| && listed[j] == t.contracts[k];
        assert ids[j] == x;
      }
    }
    WhereSameFilter(t.groups, IdIn(ids), CS.IdInSet(boundIds));
    if ids == [] {
      WhereNone(t.groups, CS.IdInSet(boundIds));
    }
  }

  class Handler {
    const store: GroupStore.SQLGroupStore
    const contractStore: CS.ContractStore

    constructor (store: GroupStore.SQLGroupStore, contractStore: CS.ContractStore)
      ensures this.store == store && this.contractStore == contractStore
    {
      this.store := store;
      this.contractStore := contractStore;
    }

    /** Both stores work on one database. */
    predicate Wired()
    {
      contractStore.db == store.pbEntityStore.db && store.Wired()
    }

    /** CreateGroup: Put's group, or its error. */
    method CreateGroup(group: Group) returns (r: Result<Group>)
      requires Wired() && store.pbEntityStore.db.Valid()
      modifies store.pbEntityStore.db
      ensures store.pbEntityStore.db.Valid()
      ensures store.pbEntityStore.db.issued == old(store.pbEntityStore.db.issued) + 1
      ensures r.Err? <==> old(store.pbEntityStore.db.issued) in store.pbEntityStore.db.faults
      ensures r.Err? ==> store.pbEntityStore.db.tables == old(store.pbEntityStore.db.tables)
      ensures r.Ok? ==> r.value.attributes == group.attributes
      ensures r.Ok? && group.id != "" ==> r.value.id == group.id
      ensures r.Ok? && group.id == "" ==> r.value.id != "" && r.value.id !in old(store.pbEntityStore.db.tables).UsedIds()
      ensures r.Ok? ==> store.pbEntityStore.db.tables
                        == old(store.pbEntityStore.db.tables).(groups := Upsert(old(store.pbEntityStore.db.tables).groups, r.value.id, MarshalGroup(r.value)))
    {
      var newGroup, err := store.Put(group);
      if err.Some? {
        return Err(err.value);
      }
      r := Ok(newGroup);
    }

    /** UpdateGroup: the same call as CreateGroup; a group that carries a
        stored id replaces that row. */
    method UpdateGroup(group: Group) returns (r: Result<Group>)
      requires Wired() && store.pbEntityStore.db.Valid()
      modifies store.pbEntityStore.db
      ensures store.pbEntityStore.db.Valid()
      ensures store.pbEntityStore.db.issued == old(store.pbEntityStore.db.issued) + 1
      ensures r.Err? <==> old(store.pbEntityStore.db.issued) in store.pbEntityStore.db.faults
      ensures r.Err? ==> store.pbEntityStore.db.tables == old(store.pbEntityStore.db.tables)
      ensures r.Ok? ==> r.value.attributes == group.attributes
      ensures r.Ok? && group.id != "" ==> r.value.id == group.id
      ensures r.Ok? && group.id == "" ==> r.value.id != "" && r.value.id !in old(store.pbEntityStore.db.tables).UsedIds()
      ensures r.Ok? ==> store.pbEntityStore.db.tables
                        == old(store.pbEntityStore.db.tables).(groups := Upsert(old(store.pbEntityStore.db.tables).groups, r.value.id, MarshalGroup(r.value)))
    {
      var updatedGroup, err := store.Put(group);
      if err.Some? {
        return Err(err.value);
      }
      r := Ok(updatedGroup);
    }

    /** DuplicateGroup: get the group, clear its id, and put it again, which
        stores a copy under a fresh id. */
    method DuplicateGroup(groupId: string) returns (r: Result<Group>)
      requires Wired() && store.pbEntityStore.db.Valid()
      modifies store.pbEntityStore.db
      ensures store.pbEntityStore.db.Valid()
      ensures r.Err? ==> store.pbEntityStore.db.tables == old(store.pbEntityStore.db.tables)
      ensures old(store.pbEntityStore.db.issued) !in store.pbEntityStore.db.faults && groupId !in Ids(old(store.pbEntityStore.db.tables).groups) ==>
                r == Err(Error(NoRecordFoundMessage(groupId))) && store.pbEntityStore.db.issued == old(store.pbEntityStore.db.issued) + 1
      ensures r.Ok? ==>
                var source := GroupStore.GetGroupStmt(old(store.pbEntityStore.db.tables).groups, groupId, None);
                && source.Ok? && r.value == source.value.(id := r.value.id)
                && r.value.id != "" && r.value.id !in old(store.pbEntityStore.db.tables).UsedIds()
                && store.pbEntityStore.db.tables
                   == old(store.pbEntityStore.db.tables).(groups := old(store.pbEntityStore.db.tables).groups + [Row(r.value.id, MarshalGroup(r.value))])
    {
      var db := store.pbEntityStore.db;
      var existing := store.Get(groupId);
      if existing.Err? {
        return Err(existing.error);
      }
      var copy := existing.value.(id := "");
      var newGroup, err := store.Put(copy);
      if err.Some? {
        return Err(err.value);
      }
      assert newGroup.id !in Ids(old(db.tables).groups);
      r := Ok(newGroup);
    }

    /** DeleteGroup as written: reports the captured error. */
    method DeleteGroup(groupId: string) returns (err: Option<Error>)
      requires Wired() && store.pbEntityStore.db.Valid()
      modifies store.pbEntityStore.db
      ensures store.pbEntityStore.db.Valid()
      ensures var spec := DeleteGroupSpec(old(store.pbEntityStore.db.tables), old(store.pbEntityStore.db.issued),
                                          store.pbEntityStore.db.faults, groupId);
              && store.pbEntityStore.db.tables == spec.tables
              && store.pbEntityStore.db.issued == spec.issued
              && err == spec.result.captured
    {
      var db := store.pbEntityStore.db;
      var snapshot := db.tables;
      ghost var n0 := db.issued;
      var txResult: Option<Error>;
      var got := store.Get(groupId);
      if got.Err? {
        err := Some(got.error);
        txResult := err;
        DeleteGroupGetFails(snapshot, n0, db.faults, groupId, got.error);
      } else {
        err := contractStore.DeleteContractsByGroupID(groupId);
        ghost var contracts := db.tables.contracts;
        if err.Some? && !HasPrefix(err.value.message, NotFoundPrefix) {
          txResult := err;
          DeleteGroupContractsFail(snapshot, n0, db.faults, groupId, got.value, contracts, err.value);
        } else {
          txResult := store.Delete(groupId);
          DeleteGroupLastStep(snapshot, n0, db.faults, groupId, got.value, contracts, err, db.tables.groups, txResult);
        }
      }
      if txResult.Some? {
        db.tables := snapshot;
      }
    }

    method GetGroupByID(groupId: string) returns (r: Result<Group>)
      requires Wired()
      modifies store.pbEntityStore.db`issued
      ensures store.pbEntityStore.db.issued == old(store.pbEntityStore.db.issued) + 1
      ensures r == GroupStore.GetGroupStmt(store.pbEntityStore.db.tables.groups, groupId,
                                           DriverFault(store.pbEntityStore.db.faults, old(store.pbEntityStore.db.issued)))
    {
      r := store.Get(groupId);
    }

    /** GetGroupsBySubjectID: the group ids are copied into a slice of the
        listing's length before the bulk get. */
    method GetGroupsBySubjectID(subjectId: string) returns (r: Result<seq<Group>>)
      requires Wired()
      modifies store.pbEntityStore.db`issued
      ensures var spec := GetGroupsBySubjectSpec(store.pbEntityStore.db.tables, old(store.pbEntityStore.db.issued),
                                                 store.pbEntityStore.db.faults, subjectId);
              store.pbEntityStore.db.issued == spec.issued && r == spec.result
    {
      var contracts := contractStore.ListAllContractsBySubject(subjectId);
      if contracts.Err? {
        return Err(contracts.error);
      }
      var cs := contracts.value;
      var groupIds := new string[|cs|];
      for i := 0 to |cs|
        modifies groupIds
        invariant forall k | 0 <= k < i :: groupIds[k] == cs[k].value.groupId
      {
        groupIds[i] := cs[i].value.groupId;
      }
      assert groupIds[..] == GroupIdsInOrder(cs);
      r := store.BulkGet(groupIds[..]);
    }
  }
}
