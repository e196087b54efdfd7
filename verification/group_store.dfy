/** The group store: groups serialized into the entity store's groups table. */
module GroupStore {
  import opened Wrappers
  import opened Table
  import opened Proto
  import opened Db
  import opened EntityStore

  /** Get: the entity store's error, or the stored payload parsed as a group. */
  function GetGroupStmt(rows: seq<Row<Payload>>, id: string, fault: Option<Error>): (r: Result<Group>)
    ensures fault.Some? ==> r == Err(fault.value)
    ensures fault.None? && id !in Ids(rows) ==> r == Err(Error(NoRecordFoundMessage(id)))
    ensures r.Ok? ==> Row(id, MarshalGroup(r.value)) in rows
  {
    match GetStmt(rows, id, fault)
    case Err(e) => Err(e)
    case Ok(entity) => UnmarshalGroup(entity.payload)
  }

  /** The row Put writes for a group that already carries its id. */
  function GroupEntity(g: Group): PBEntity
  {
    PBEntity(g.id, MarshalGroup(g))
  }

  /** Get(Put(g).Id) returns g. */
  lemma GetAfterPutGroup(rows: seq<Row<Payload>>, g: Group)
    ensures GetGroupStmt(PutStmt(rows, GroupEntity(g), None).0, g.id, None) == Ok(g)
  {
    GetAfterPut(rows, GroupEntity(g));
    MarshalRoundTrip(g, Policy("", None));
  }

  /** The statement behind the bulk get the group handler uses: an empty id
      list returns nothing without a query; otherwise the rows whose id is
      listed, in table order, each parsed as a group. */
  function BulkGetGroupsStmt(rows: seq<Row<Payload>>, ids: seq<string>, fault: Option<Error>): (r: Result<seq<Group>>)
    ensures ids == [] ==> r == Ok([])
    ensures ids != [] && fault.Some? ==> r == Err(fault.value)
    ensures r.Ok? ==> |r.value| <= |rows|
  {
    if ids == [] then Ok([])
    else if fault.Some? then Err(fault.value)
    else DecodeGroups(Where(rows, IdIn(ids)))
  }

  /** Parse each payload in order; the first that is not a group fails the
      whole list. */
  function DecodeGroups(rows: seq<Row<Payload>>): (r: Result<seq<Group>>)
    ensures r.Ok? <==> forall i | 0 <= i < |rows| :: rows[i].value.GroupPayload?
    ensures r.Ok? ==> |r.value| == |rows| && forall i | 0 <= i < |rows| :: rows[i].value == MarshalGroup(r.value[i])
    ensures r.Err? ==> r.error == Error(DecodeErrorMessage)
  {
    if rows == [] then Ok([])
    else match UnmarshalGroup(rows[0].value)
      case Err(e) => Err(e)
      case Ok(g) =>
        match DecodeGroups(rows[1..])
        case Err(e) => Err(e)
        case Ok(gs) =>
          assert forall i | 1 <= i < |rows| :: rows[i] == rows[1..][i - 1];
          Ok([g] + gs)
  }

  /** Every group a bulk get returns is stored under a listed id. */
  lemma BulkGetReturnsListed(rows: seq<Row<Payload>>, ids: seq<string>, i: nat)
    requires ids != []
    requires BulkGetGroupsStmt(rows, ids, None).Ok?
    requires i < |BulkGetGroupsStmt(rows, ids, None).value|
    ensures exists k | 0 <= k < |rows| :: rows[k].id in ids && rows[k].value == MarshalGroup(BulkGetGroupsStmt(rows, ids, None).value[i])
  {
    var selected := Where(rows, IdIn(ids));
    assert selected[i] in rows && IdIn(ids)(selected[i]);
    var k :| 0 <= k < |rows| && rows[k] == selected[i];
  }

  /** Conversely, every stored row whose id is listed comes back as a group. */
  lemma BulkGetReturnsEveryListed(rows: seq<Row<Payload>>, ids: seq<string>, k: nat)
    requires ids != []
    requires BulkGetGroupsStmt(rows, ids, None).Ok?
    requires k < |rows| && rows[k].id in ids
    ensures exists i | 0 <= i < |BulkGetGroupsStmt(rows, ids, None).value| ::
              MarshalGroup(BulkGetGroupsStmt(rows, ids, None).value[i]) == rows[k].value
  {
    var selected := Where(rows, IdIn(ids));
    assert rows[k] in selected;
    var i :| 0 <= i < |selected| && selected[i] == rows[k];
  }

  /** SQLGroupStore: the entity store opened on the groups table. */
  class SQLGroupStore {
    const pbEntityStore: SQLPBEntityStore

    constructor (db: Database)
      ensures fresh(pbEntityStore) && pbEntityStore.db == db && Wired()
    {
      pbEntityStore := new SQLPBEntityStore(db, GroupsTable);
    }

    predicate Wired()
    {
      pbEntityStore.tableName == GroupsTable
    }

    method Get(id: string) returns (r: Result<Group>)
      requires Wired()
      modifies pbEntityStore.db`issued
      ensures pbEntityStore.db.issued == old(pbEntityStore.db.issued) + 1
      ensures r == GetGroupStmt(pbEntityStore.db.tables.groups, id, DriverFault(pbEntityStore.db.faults, old(pbEntityStore.db.issued)))
    {
      var e := pbEntityStore.Get(id);
      match e
      case Err(err) => r := Err(err);
      case Ok(entity) => r := UnmarshalGroup(entity.payload);
    }

    /** Put: an empty id is replaced by a fresh one before the group is
        serialized; the group comes back carrying the stored id. */
    method Put(group: Group) returns (ret: Group, err: Option<Error>)
      requires Wired() && pbEntityStore.db.Valid()
      modifies pbEntityStore.db
      ensures pbEntityStore.db.Valid()
      ensures ret.attributes == group.attributes
      ensures group.id != "" ==> ret.id == group.id
      ensures group.id == "" ==> ret.id != "" && ret.id !in old(pbEntityStore.db.tables).UsedIds()
      ensures pbEntityStore.db.issued == old(pbEntityStore.db.issued) + 1
      ensures var (rows, e) := PutStmt(old(pbEntityStore.db.tables).groups, GroupEntity(ret),
                                       DriverFault(pbEntityStore.db.faults, old(pbEntityStore.db.issued)));
              pbEntityStore.db.tables == old(pbEntityStore.db.tables).(groups := rows) && err == e
    {
      ret := group;
      if group.id == "" {
        var id := pbEntityStore.db.NewUuid();
        ret := group.(id := id);
      }
      var payload := MarshalGroup(ret);
      var entity, e := pbEntityStore.Put(PBEntity(ret.id, payload));
      err := e;
      if e.None? {
        ret := ret.(id := entity.id);
      }
    }

    method Delete(id: string) returns (err: Option<Error>)
      requires Wired() && pbEntityStore.db.Valid()
      modifies pbEntityStore.db
      ensures pbEntityStore.db.Valid()
      ensures pbEntityStore.db.issued == old(pbEntityStore.db.issued) + 1
      ensures var (rows, e) := DeleteStmt(old(pbEntityStore.db.tables).groups, id, NotFoundMessage(id),
                                          DriverFault(pbEntityStore.db.faults, old(pbEntityStore.db.issued)));
              pbEntityStore.db.tables == old(pbEntityStore.db.tables).(groups := rows) && err == e
    {
      err := pbEntityStore.Delete(id);
    }

    /** The bulk get the group handler calls inside its transaction. */
    method BulkGet(ids: seq<string>) returns (r: Result<seq<Group>>)
      requires Wired()
      modifies pbEntityStore.db`issued
      ensures pbEntityStore.db.issued == old(pbEntityStore.db.issued) + (if ids == [] then 0 else 1)
      ensures r == BulkGetGroupsStmt(pbEntityStore.db.tables.groups, ids,
                                     DriverFault(pbEntityStore.db.faults, old(pbEntityStore.db.issued)))
    {
      if ids == [] {
        return Ok([]);
      }
      var fault := pbEntityStore.db.Issue();
      r := BulkGetGroupsStmt(pbEntityStore.db.tables.groups, ids, fault);
    }
  }
}
