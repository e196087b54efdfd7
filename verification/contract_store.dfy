/** The contract store: rows of the contracts table, each binding one subject
    to one group. */
module ContractStore {
  import opened Wrappers
  import opened Table
  import opened Proto
  import opened Db
  import opened EntityStore
  import GroupStore

  /** contract.Contract: (id, subject_id, group_id). */
  type ContractRow = Row<Link>

  function ToPB(c: ContractRow): Contract
  {
    Contract(c.id, c.value.subjectId, c.value.groupId)
  }

  /** The filter `subject_id = $1`. */
  function SubjectIs(subjectId: string): ContractRow -> bool
  {
    (c: ContractRow) => c.value.subjectId == subjectId
  }

  /** The filter `group_id = $1`. */
  function GroupIs(groupId: string): ContractRow -> bool
  {
    (c: ContractRow) => c.value.groupId == groupId
  }

  /** What `DELETE ... WHERE subject_id = $1 AND group_id = $2` keeps. */
  function NotLink(link: Link): ContractRow -> bool
  {
    (c: ContractRow) => c.value != link
  }

  /** What `DELETE ... WHERE group_id = $1` keeps. */
  function NotGroup(groupId: string): ContractRow -> bool
  {
    (c: ContractRow) => c.value.groupId != groupId
  }

  /** The filter `id IN (...)` over a set of ids. */
  function IdInSet(ids: set<string>): Row<Payload> -> bool
  {
    (r: Row<Payload>) => r.id in ids
  }

  function AlreadyExistsMessage(subjectId: string, groupId: string): string
  {
    "contract by " + subjectId + ":" + groupId + " already exists"
  }

  function NotInsertedMessage(subjectId: string, groupId: string): string
  {
    "no record is inserted for " + subjectId + ":" + groupId
  }

  function NoRecordForPairMessage(subjectId: string, groupId: string): string
  {
    "no record is found for " + subjectId + ":" + groupId
  }

  function NoRecordForIdMessage(contractId: string): string
  {
    "no record is found for contractID " + contractId
  }

  /** The zero-row message of the delete-by-group statement; only its
      "not found" prefix matters to the caller. */
  function NoContractForGroupMessage(groupId: string): string
  {
    "not found: no contract for group " + groupId
  }

  /** A SELECT over the contracts table: exactly the rows the filter keeps. */
  function ListStmt(rows: seq<ContractRow>, keep: ContractRow -> bool, fault: Option<Error>): (r: Result<seq<ContractRow>>)
    ensures fault.Some? <==> r.Err?
    ensures fault.Some? ==> r.error == fault.value
    ensures r.Ok? ==> forall i | 0 <= i < |r.value| :: r.value[i] in rows && keep(r.value[i])
    ensures r.Ok? ==> forall i | 0 <= i < |rows| :: keep(rows[i]) ==> rows[i] in r.value
  {
    if fault.Some? then Err(fault.value) else Ok(Where(rows, keep))
  }

  /** A DELETE over the contracts table: the kept rows, and the error the
      zero-row rule gives. */
  function DeleteWhereStmt(rows: seq<ContractRow>, keep: ContractRow -> bool, onNoRowAffected: string,
                           fault: Option<Error>): (r: (seq<ContractRow>, Option<Error>))
    ensures fault.Some? ==> r == (rows, fault)
    ensures fault.None? ==> (r.1.None? <==> exists i | 0 <= i < |rows| :: !keep(rows[i]))
    ensures fault.None? && r.1.Some? ==> r.1.value == Error(onNoRowAffected)
    ensures fault.None? ==> forall i | 0 <= i < |r.0| :: r.0[i] in rows && keep(r.0[i])
    ensures fault.None? ==> forall i | 0 <= i < |rows| :: keep(rows[i]) ==> rows[i] in r.0
  {
    if fault.Some? then (rows, fault)
    else
      var kept := Where(rows, keep);
      WhereCount(rows, keep);
      (kept, CheckErrorForRowsAffected(Some(Ok(|rows| - |kept|)), onNoRowAffected))
  }

  /** AddNewContract: list the subject's contracts, refuse a second contract
      for the same group, otherwise insert one row under the generated id. */
  function AddNewContractSpec(t: Tables, n: nat, faults: map<nat, string>, subjectId: string, groupId: string,
                              newId: string): (r: Effect<Result<Contract>>)
    ensures r.result.Err? ==> r.tables == t
    ensures r.result.Ok? ==> r.result.value == Contract(newId, subjectId, groupId)
    ensures r.result.Ok? ==> r.tables == t.(contracts := t.contracts + [Row(newId, Link(subjectId, groupId))])
    ensures (exists i | 0 <= i < |t.contracts| :: t.contracts[i].value == Link(subjectId, groupId)) ==> r.result.Err?
  {
    match ListStmt(t.contracts, SubjectIs(subjectId), DriverFault(faults, n))
    case Err(e) => Effect(t, n + 1, Err(e))
    case Ok(contracts) =>
      if exists i | 0 <= i < |contracts| :: contracts[i].value.groupId == groupId then
        Effect(t, n + 1, Err(Error(AlreadyExistsMessage(subjectId, groupId))))
      else match DriverFault(faults, n + 1)
        case Some(e) => Effect(t, n + 2, Err(e))
        case None =>
          var row := Row(newId, Link(subjectId, groupId));
          var check := CheckErrorForRowsAffected(Some(Ok(1)), NotInsertedMessage(subjectId, groupId));
          if check.Some? then Effect(t, n + 2, Err(check.value))
          else Effect(t.(contracts := t.contracts + [row]), n + 2, Ok(ToPB(row)))
  }

  /** Inserting a pair that the subject's listing does not show, under an
      unused id, keeps every table invariant. */
  lemma InsertKeepsValid(t: Tables, subjectId: string, groupId: string, newId: string)
    requires t.Valid() && newId !in t.UsedIds()
    requires forall i | 0 <= i < |Where(t.contracts, SubjectIs(subjectId))| ::
               Where(t.contracts, SubjectIs(subjectId))[i].value.groupId != groupId
    ensures t.(contracts := t.contracts + [Row(newId, Link(subjectId, groupId))]).Valid()
  {
    var listed := Where(t.contracts, SubjectIs(subjectId));
    forall i | 0 <= i < |t.contracts|
      ensures t.contracts[i].value != Link(subjectId, groupId)
    {
      if SubjectIs(subjectId)(t.contracts[i]) {
        var k :| 0 <= k < |listed| && listed[k] == t.contracts[i];
        assert listed[k].value.groupId != groupId;
      }
    }
    AppendKeepsUnique(t.contracts, Row(newId, Link(subjectId, groupId)));
  }

  /** Sequential AddNewContract calls keep at most one contract per
      (subject, group) pair. */
  lemma AddNewContractKeepsPairsUnique(t: Tables, n: nat, faults: map<nat, string>, subjectId: string,
                                       groupId: string, newId: string)
    requires t.Valid() && newId !in t.UsedIds()
    ensures AddNewContractSpec(t, n, faults, subjectId, groupId, newId).tables.Valid()
  {
    if n !in faults {
      var listed := Where(t.contracts, SubjectIs(subjectId));
      if !exists i | 0 <= i < |listed| :: listed[i].value.groupId == groupId {
        InsertKeepsValid(t, subjectId, groupId, newId);
      }
    }
  }

  /** Adding the same contract a second time fails with "already exists" and
      changes nothing, once the listing statement succeeds. */
  lemma AddNewContractTwice(t: Tables, n: nat, faults: map<nat, string>, subjectId: string, groupId: string,
                            id1: string, id2: string)
    requires AddNewContractSpec(t, n, faults, subjectId, groupId, id1).result.Ok?
    requires AddNewContractSpec(t, n, faults, subjectId, groupId, id1).issued !in faults
    ensures var first := AddNewContractSpec(t, n, faults, subjectId, groupId, id1);
            var second := AddNewContractSpec(first.tables, first.issued, faults, subjectId, groupId, id2);
            second.result == Err(Error(AlreadyExistsMessage(subjectId, groupId))) && second.tables == first.tables
  {
    var first := AddNewContractSpec(t, n, faults, subjectId, groupId, id1);
    var rows := first.tables.contracts;
    assert rows[|rows| - 1].value == Link(subjectId, groupId);
    var listed := Where(rows, SubjectIs(subjectId));
    assert SubjectIs(subjectId)(rows[|rows| - 1]);
    var k :| 0 <= k < |listed| && listed[k] == rows[|rows| - 1];
  }

  /** AddNewContract for a pair no contract binds yet fails only when the
      driver fails one of its two statements. */
  lemma AddNewContractFailsOnlyOnFault(t: Tables, n: nat, faults: map<nat, string>, subjectId: string,
                                       groupId: string, newId: string, r: Effect<Result<Contract>>)
    requires r == AddNewContractSpec(t, n, faults, subjectId, groupId, newId)
    requires forall i | 0 <= i < |t.contracts| :: t.contracts[i].value != Link(subjectId, groupId)
    ensures r.result.Err? ==> (n in faults && r.issued == n + 1) || (n !in faults && n + 1 in faults && r.issued == n + 2)
    ensures r.result.Ok? ==> n !in faults && n + 1 !in faults && r.issued == n + 2
  {
    if n !in faults {
      var listed := Where(t.contracts, SubjectIs(subjectId));
      forall i | 0 <= i < |listed| ensures listed[i].value.groupId != groupId {
        assert listed[i] in t.contracts && SubjectIs(subjectId)(listed[i]);
      }
    }
  }

  /** The group ids of a subject's contracts. */
  function GroupIdsOf(rows: seq<ContractRow>, subjectId: string): set<string>
  {
    set i | 0 <= i < |rows| && rows[i].value.subjectId == subjectId :: rows[i].value.groupId
  }

  /** ListGroupsBySubjectID's statement: the groups, in table order, whose id
      is the group of one of the subject's contracts, each parsed. */
  function ListGroupsStmt(t: Tables, subjectId: string, fault: Option<Error>): (r: Result<seq<Group>>)
    ensures fault.Some? ==> r == Err(fault.value)
    ensures r.Ok? ==> |r.value| <= |t.groups|
  {
    if fault.Some? then Err(fault.value)
    else GroupStore.DecodeGroups(Where(t.groups, IdInSet(GroupIdsOf(t.contracts, subjectId))))
  }

  /** Every group ListGroupsBySubjectID returns is stored under the id of a
      group one of the subject's contracts names. */
  lemma ListGroupsAreTheSubjects(t: Tables, subjectId: string, i: nat)
    requires ListGroupsStmt(t, subjectId, None).Ok?
    requires i < |ListGroupsStmt(t, subjectId, None).value|
    ensures exists k, j | 0 <= k < |t.groups| && 0 <= j < |t.contracts| ::
              t.groups[k].value == MarshalGroup(ListGroupsStmt(t, subjectId, None).value[i]) &&
              t.contracts[j].value == Link(subjectId, t.groups[k].id)
  {
    var selected := Where(t.groups, IdInSet(GroupIdsOf(t.contracts, subjectId)));
    assert selected[i] in t.groups && IdInSet(GroupIdsOf(t.contracts, subjectId))(selected[i]);
    var k :| 0 <= k < |t.groups| && t.groups[k] == selected[i];
    var j :| 0 <= j < |t.contracts| && t.contracts[j].value.subjectId == subjectId
             && t.contracts[j].value.groupId == selected[i].id;
  }

  /** Conversely, every stored group whose id one of the subject's contracts
      names is among the groups ListGroupsBySubjectID returns. */
  lemma SubjectsGroupsAreListed(t: Tables, subjectId: string, k: nat, j: nat)
    requires ListGroupsStmt(t, subjectId, None).Ok?
    requires k < |t.groups| && j < |t.contracts|
    requires t.contracts[j].value == Link(subjectId, t.groups[k].id)
    ensures exists i | 0 <= i < |ListGroupsStmt(t, subjectId, None).value| ::
              MarshalGroup(ListGroupsStmt(t, subjectId, None).value[i]) == t.groups[k].value
  {
    var selected := Where(t.groups, IdInSet(GroupIdsOf(t.contracts, subjectId)));
    assert t.groups[k].id in GroupIdsOf(t.contracts, subjectId);
    assert t.groups[k] in selected;
    var i :| 0 <= i < |selected| && selected[i] == t.groups[k];
  }

  /** contractStore: a database handle. */
  class ContractStore {
    const db: Database

    constructor (db: Database)
      ensures this.db == db
    {
      this.db := db;
    }

    method ListAllContractsBySubject(subjectId: string) returns (r: Result<seq<ContractRow>>)
      modifies db`issued
      ensures db.issued == old(db.issued) + 1
      ensures r == ListStmt(db.tables.contracts, SubjectIs(subjectId), DriverFault(db.faults, old(db.issued)))
    {
      var fault := db.Issue();
      r := ListStmt(db.tables.contracts, SubjectIs(subjectId), fault);
    }

    /** The listing by group the subject handler runs inside its transaction. */
    method ListContractsByGroupID(groupId: string) returns (r: Result<seq<ContractRow>>)
      modifies db`issued
      ensures db.issued == old(db.issued) + 1
      ensures r == ListStmt(db.tables.contracts, GroupIs(groupId), DriverFault(db.faults, old(db.issued)))
    {
      var fault := db.Issue();
      r := ListStmt(db.tables.contracts, GroupIs(groupId), fault);
    }

    method AddNewContract(subjectId: string, groupId: string) returns (r: Result<Contract>, ghost newId: string)
      requires db.Valid()
      modifies db
      ensures db.Valid()
      ensures r.Ok? ==> newId != "" && newId !in old(db.tables).UsedIds()
      ensures Effect(db.tables, db.issued, r)
              == AddNewContractSpec(old(db.tables), old(db.issued), db.faults, subjectId, groupId, newId)
    {
      newId := "";
      var listed := ListAllContractsBySubject(subjectId);
      if listed.Err? {
        r := Err(listed.error);
        return;
      }
      var contracts := listed.value;
      var i := 0;
      while i < |contracts|
        invariant 0 <= i <= |contracts|
        invariant forall k | 0 <= k < i :: contracts[k].value.groupId != groupId
      {
        if contracts[i].value.groupId == groupId {
          r := Err(Error(AlreadyExistsMessage(subjectId, groupId)));
          return;
        }
        i := i + 1;
      }
      var id := db.NewUuid();
      newId := id;
      var fault := db.Issue();
      if fault.Some? {
        r := Err(fault.value);
        return;
      }
      var row := Row(id, Link(subjectId, groupId));
      InsertKeepsValid(db.tables, subjectId, groupId, id);
      db.tables := db.tables.(contracts := db.tables.contracts + [row]);
      var check := CheckErrorForRowsAffected(Some(Ok(1)), NotInsertedMessage(subjectId, groupId));
      assert check.None?;
      r := Ok(ToPB(row));
    }

    /** DeleteContract: removes every row for the pair; no such row is an error. */
    method DeleteContract(subjectId: string, groupId: string) returns (err: Option<Error>)
      requires db.Valid()
      modifies db
      ensures db.Valid()
      ensures db.issued == old(db.issued) + 1
      ensures var (rows, e) := DeleteWhereStmt(old(db.tables).contracts, NotLink(Link(subjectId, groupId)),
                                               NoRecordForPairMessage(subjectId, groupId), DriverFault(db.faults, old(db.issued)));
              db.tables == old(db.tables).(contracts := rows) && err == e
    {
      var fault := db.Issue();
      WhereKeepsUnique(db.tables.contracts, NotLink(Link(subjectId, groupId)));
      var (rows, e) := DeleteWhereStmt(db.tables.contracts, NotLink(Link(subjectId, groupId)),
                                       NoRecordForPairMessage(subjectId, groupId), fault);
      db.tables := db.tables.(contracts := rows);
      err := e;
    }

    /** DeleteContractByContractID: removes the row with that id; no such row
        is an error. */
    method DeleteContractByContractID(contractId: string) returns (err: Option<Error>)
      requires db.Valid()
      modifies db
      ensures db.Valid()
      ensures db.issued == old(db.issued) + 1
      ensures var (rows, e) := DeleteStmt(old(db.tables).contracts, contractId, NoRecordForIdMessage(contractId),
                                          DriverFault(db.faults, old(db.issued)));
              db.tables == old(db.tables).(contracts := rows) && err == e
    {
      var fault := db.Issue();
      RemoveIdIsWhere(db.tables.contracts, contractId);
      WhereKeepsUnique(db.tables.contracts, NotId(contractId));
      var (rows, e) := DeleteStmt(db.tables.contracts, contractId, NoRecordForIdMessage(contractId), fault);
      db.tables := db.tables.(contracts := rows);
      err := e;
    }

    /** The delete by group the group handler runs inside its transaction. */
    method DeleteContractsByGroupID(groupId: string) returns (err: Option<Error>)
      requires db.Valid()
      modifies db
      ensures db.Valid()
      ensures db.issued == old(db.issued) + 1
      ensures var (rows, e) := DeleteWhereStmt(old(db.tables).contracts, NotGroup(groupId),
                                               NoContractForGroupMessage(groupId), DriverFault(db.faults, old(db.issued)));
              db.tables == old(db.tables).(contracts := rows) && err == e
    {
      var fault := db.Issue();
      WhereKeepsUnique(db.tables.contracts, NotGroup(groupId));
      var (rows, e) := DeleteWhereStmt(db.tables.contracts, NotGroup(groupId), NoContractForGroupMessage(groupId), fault);
      db.tables := db.tables.(contracts := rows);
      err := e;
    }

    /** ListGroupsBySubjectID: one query, then each payload parsed in order. */
    method ListGroupsBySubjectID(subjectId: string) returns (r: Result<seq<Group>>)
      modifies db`issued
      ensures db.issued == old(db.issued) + 1
      ensures r == ListGroupsStmt(db.tables, subjectId, DriverFault(db.faults, old(db.issued)))
    {
      var fault := db.Issue();
      if fault.Some? {
        return Err(fault.value);
      }
      var pbEntities := Where(db.tables.groups, IdInSet(GroupIdsOf(db.tables.contracts, subjectId)));
      var groups: seq<Group> := [];
      for i := 0 to |pbEntities|
        invariant |groups| == i
        invariant forall k | 0 <= k < i :: pbEntities[k].value == MarshalGroup(groups[k])
      {
        var decoded := UnmarshalGroup(pbEntities[i].value);
        if decoded.Err? {
          assert !GroupStore.DecodeGroups(pbEntities).Ok?;
          return Err(decoded.error);
        }
        groups := groups + [decoded.value];
      }
      var expected := GroupStore.DecodeGroups(pbEntities);
      assert expected.Ok?;
      assert |expected.value| == |groups|;
      assert forall k | 0 <= k < |groups| :: expected.value[k] == groups[k];
      assert expected.value == groups;
      r := Ok(groups);
    }
  }
}
