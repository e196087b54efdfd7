/** The generic entity store: rows of (id, payload) in the groups or the
    policies table, with insert-or-replace writes and the rule that a write
    which affects no row is an error. */
module EntityStore {
  import opened Wrappers
  import opened Table
  import opened Proto
  import opened Db

  /** store.PBEntity: one (id, payload) row. */
  datatype PBEntity = PBEntity(id: string, payload: Payload)

  /** What a statement hands back as its sql.Result: `None` is a nil result,
      `Some(Err(e))` a failing RowsAffected call, `Some(Ok(n))` n rows. */
  type SqlResult = Option<Result<nat>>

  const NilResultMessage := "nil result"
  const NoRowAffectedMessage := "no row is affected"

  /** PostgreSQL reports one affected row for INSERT ... ON CONFLICT DO UPDATE,
      whether it inserted or updated. */
  const UpsertRowsAffected: nat := 1

  function NoRecordFoundMessage(id: string): string { "no record found for " + id }

  function NotFoundMessage(id: string): string { id + " is not found" }

  /** CheckErrorForRowsAffected: success exactly when the statement reports
      at least one row; a nil result, a failing count and a zero count are
      three distinct errors. */
  function CheckErrorForRowsAffected(result: SqlResult, onNoRowAffected: string): (r: Option<Error>)
    ensures r.None? <==> result.Some? && result.value.Ok? && result.value.value > 0
    ensures result.None? ==> r == Some(Error(NilResultMessage))
    ensures result.Some? && result.value.Err? ==> r == Some(result.value.error)
    ensures result == Some(Ok(0)) ==> r == Some(Error(onNoRowAffected))
  {
    match result
    case None => Some(Error(NilResultMessage))
    case Some(Err(e)) => Some(e)
    case Some(Ok(n)) => if n == 0 then Some(Error(onNoRowAffected)) else None
  }

  /** The row count of `DELETE ... WHERE id = $1`. */
  function DeletedCount<V>(rows: seq<Row<V>>, id: string): (n: nat)
    ensures n > 0 <==> id in Ids(rows)
  {
    RemoveIdCount(rows, id);
    |rows| - |RemoveId(rows, id)|
  }

  /** Get's statement and its outcome: the driver's error, the first row with
      the id, or "no record found". */
  function GetStmt(rows: seq<Row<Payload>>, id: string, fault: Option<Error>): (r: Result<PBEntity>)
    ensures fault.Some? ==> r == Err(fault.value)
    ensures fault.None? ==> (r.Ok? <==> id in Ids(rows))
    ensures fault.None? && r.Err? ==> r.error == Error(NoRecordFoundMessage(id))
    ensures r.Ok? ==> r.value.id == id && Row(id, r.value.payload) in rows
  {
    if fault.Some? then Err(fault.value)
    else match Find(rows, id)
      case None => Err(Error(NoRecordFoundMessage(id)))
      case Some(p) => Ok(PBEntity(id, p))
  }

  /** Put's upsert statement: the new rows and the error Put reports. */
  function PutStmt(rows: seq<Row<Payload>>, entity: PBEntity, fault: Option<Error>): (r: (seq<Row<Payload>>, Option<Error>))
    ensures fault.Some? ==> r == (rows, fault)
    ensures fault.None? ==> r.1.None? && Ids(r.0) == Ids(rows) + {entity.id}
  {
    if fault.Some? then (rows, fault)
    else (Upsert(rows, entity.id, entity.payload), CheckErrorForRowsAffected(Some(Ok(UpsertRowsAffected)), NoRowAffectedMessage))
  }

  /** `DELETE ... WHERE id = $1`: the new rows and the error the zero-row
      rule gives, with the caller's message. */
  function DeleteStmt<V>(rows: seq<Row<V>>, id: string, onNoRowAffected: string, fault: Option<Error>): (r: (seq<Row<V>>, Option<Error>))
    ensures fault.Some? ==> r == (rows, fault)
    ensures fault.None? ==> Ids(r.0) == Ids(rows) - {id}
    ensures fault.None? ==> (r.1.None? <==> id in Ids(rows))
    ensures fault.None? && r.1.Some? ==> r.0 == rows && r.1 == Some(Error(onNoRowAffected))
    ensures fault.None? ==> forall i | 0 <= i < |rows| :: rows[i].id != id ==> rows[i] in r.0
    ensures forall i | 0 <= i < |r.0| :: r.0[i] in rows
  {
    if fault.Some? then (rows, fault)
    else
      RemoveIdIsWhere(rows, id);
      (RemoveId(rows, id), CheckErrorForRowsAffected(Some(Ok(DeletedCount(rows, id))), onNoRowAffected))
  }

  /** Get after a successful Put of the same id returns what was stored. */
  lemma GetAfterPut(rows: seq<Row<Payload>>, entity: PBEntity)
    ensures GetStmt(PutStmt(rows, entity, None).0, entity.id, None) == Ok(entity)
  {
    FindAfterUpsert(rows, entity.id, entity.payload);
  }

  /** Put leaves every other id as Get saw it. */
  lemma GetOtherAfterPut(rows: seq<Row<Payload>>, entity: PBEntity, other: string)
    requires other != entity.id
    ensures GetStmt(PutStmt(rows, entity, None).0, other, None) == GetStmt(rows, other, None)
  {
    FindOtherAfterUpsert(rows, entity.id, entity.payload, other);
  }

  /** Put is insert-or-replace: two Puts under one id leave only the second,
      and the table keeps one row per id. */
  lemma PutTwice(rows: seq<Row<Payload>>, id: string, first: Payload, second: Payload)
    ensures PutStmt(PutStmt(rows, PBEntity(id, first), None).0, PBEntity(id, second), None)
            == PutStmt(rows, PBEntity(id, second), None)
    ensures UniqueIds(rows) ==> UniqueIds(PutStmt(rows, PBEntity(id, second), None).0)
  {
    UpsertTwice(rows, id, first, second);
    UpsertFrame(rows, id, second);
  }

  /** After a successful Delete, Get reports the id as missing, and a second
      Delete of the same id fails with "is not found". */
  lemma GetAfterDelete(rows: seq<Row<Payload>>, id: string)
    requires id in Ids(rows)
    ensures DeleteStmt(rows, id, NotFoundMessage(id), None).1.None?
    ensures GetStmt(DeleteStmt(rows, id, NotFoundMessage(id), None).0, id, None) == Err(Error(NoRecordFoundMessage(id)))
    ensures DeleteStmt(DeleteStmt(rows, id, NotFoundMessage(id), None).0, id, NotFoundMessage(id), None).1 == Some(Error(NotFoundMessage(id)))
  {
  }

  /** SQLPBEntityStore: a database handle and the table it works on. */
  class SQLPBEntityStore {
    const db: Database
    const tableName: EntityTable

    constructor (db: Database, tableName: EntityTable)
      ensures this.db == db && this.tableName == tableName
    {
      this.db := db;
      this.tableName := tableName;
    }

    method Get(id: string) returns (r: Result<PBEntity>)
      modifies db`issued
      ensures db.issued == old(db.issued) + 1
      ensures r == GetStmt(db.tables.Entities(tableName), id, DriverFault(db.faults, old(db.issued)))
    {
      var fault := db.Issue();
      r := GetStmt(db.tables.Entities(tableName), id, fault);
    }

    /** Put: an empty id is replaced by a fresh one, a given id is kept, and
        the row is upserted. */
    method Put(entity: PBEntity) returns (ret: PBEntity, err: Option<Error>)
      requires db.Valid()
      modifies db
      ensures db.Valid()
      ensures ret.payload == entity.payload
      ensures entity.id != "" ==> ret.id == entity.id
      ensures entity.id == "" ==> ret.id != "" && ret.id !in old(db.tables).UsedIds()
      ensures db.issued == old(db.issued) + 1
      ensures var (rows, e) := PutStmt(old(db.tables).Entities(tableName), ret, DriverFault(db.faults, old(db.issued)));
              db.tables == old(db.tables).WithEntities(tableName, rows) && err == e
    {
      ret := entity;
      if entity.id == "" {
        var id := db.NewUuid();
        ret := entity.(id := id);
      }
      var fault := db.Issue();
      var rows := db.tables.Entities(tableName);
      UpsertFrame(rows, ret.id, ret.payload);
      var (newRows, e) := PutStmt(rows, ret, fault);
      db.tables := db.tables.WithEntities(tableName, newRows);
      err := e;
    }

    method Delete(id: string) returns (err: Option<Error>)
      requires db.Valid()
      modifies db
      ensures db.Valid()
      ensures db.issued == old(db.issued) + 1
      ensures var (rows, e) := DeleteStmt(old(db.tables).Entities(tableName), id, NotFoundMessage(id), DriverFault(db.faults, old(db.issued)));
              db.tables == old(db.tables).WithEntities(tableName, rows) && err == e
    {
      var fault := db.Issue();
      var rows := db.tables.Entities(tableName);
      RemoveIdIsWhere(rows, id);
      WhereKeepsUnique(rows, NotId(id));
      var (newRows, e) := DeleteStmt(rows, id, NotFoundMessage(id), fault);
      db.tables := db.tables.WithEntities(tableName, newRows);
      err := e;
    }
  }
}
