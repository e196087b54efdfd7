/** The policy store: policies serialized into the entity store's policies table. */
module PolicyStore {
  import opened Wrappers
  import opened Table
  import opened Proto
  import opened Db
  import opened EntityStore

  /** Get: the entity store's error, or the stored payload parsed as a policy. */
  function GetPolicyStmt(rows: seq<Row<Payload>>, id: string, fault: Option<Error>): (r: Result<Policy>)
    ensures fault.Some? ==> r == Err(fault.value)
    ensures fault.None? && id !in Ids(rows) ==> r == Err(Error(NoRecordFoundMessage(id)))
    ensures r.Ok? ==> Row(id, MarshalPolicy(r.value)) in rows
  {
    match GetStmt(rows, id, fault)
    case Err(e) => Err(e)
    case Ok(entity) => UnmarshalPolicy(entity.payload)
  }

  /** The row Put writes for a policy that already carries its id. */
  function PolicyEntity(p: Policy): PBEntity
  {
    PBEntity(p.id, MarshalPolicy(p))
  }

  /** Get(Put(p).Id) returns p. */
  lemma GetAfterPutPolicy(rows: seq<Row<Payload>>, p: Policy)
    ensures GetPolicyStmt(PutStmt(rows, PolicyEntity(p), None).0, p.id, None) == Ok(p)
  {
    GetAfterPut(rows, PolicyEntity(p));
    MarshalRoundTrip(Group("", []), p);
  }

  /** SQLPolicyStore: the entity store opened on the policies table. */
  class SQLPolicyStore {
    const pbEntityStore: SQLPBEntityStore

    constructor (db: Database)
      ensures fresh(pbEntityStore) && pbEntityStore.db == db && Wired()
    {
      pbEntityStore := new SQLPBEntityStore(db, PoliciesTable);
    }

    predicate Wired()
    {
      pbEntityStore.tableName == PoliciesTable
    }

    method Get(id: string) returns (r: Result<Policy>)
      requires Wired()
      modifies pbEntityStore.db`issued
      ensures pbEntityStore.db.issued == old(pbEntityStore.db.issued) + 1
      ensures r == GetPolicyStmt(pbEntityStore.db.tables.policies, id, DriverFault(pbEntityStore.db.faults, old(pbEntityStore.db.issued)))
    {
      var e := pbEntityStore.Get(id);
      match e
      case Err(err) => r := Err(err);
      case Ok(entity) => r := UnmarshalPolicy(entity.payload);
    }

    /** Put: an empty id is replaced by a fresh one before the policy is
        serialized; the policy comes back carrying the stored id. */
    method Put(policy: Policy) returns (ret: Policy, err: Option<Error>)
      requires Wired() && pbEntityStore.db.Valid()
      modifies pbEntityStore.db
      ensures pbEntityStore.db.Valid()
      ensures ret.condition == policy.condition
      ensures policy.id != "" ==> ret.id == policy.id
      ensures policy.id == "" ==> ret.id != "" && ret.id !in old(pbEntityStore.db.tables).UsedIds()
      ensures pbEntityStore.db.issued == old(pbEntityStore.db.issued) + 1
      ensures var (rows, e) := PutStmt(old(pbEntityStore.db.tables).policies, PolicyEntity(ret),
                                       DriverFault(pbEntityStore.db.faults, old(pbEntityStore.db.issued)));
              pbEntityStore.db.tables == old(pbEntityStore.db.tables).(policies := rows) && err == e
    {
      ret := policy;
      if policy.id == "" {
        var id := pbEntityStore.db.NewUuid();
        ret := policy.(id := id);
      }
      var payload := MarshalPolicy(ret);
      var entity, e := pbEntityStore.Put(PBEntity(ret.id, payload));
      err := e;
      if e.None? {
        ret := ret.(id := entity.id);
      }
    }

    method Delete(id: string) returns (err: Option<Error>)
      requires Wired() && pbEntityStore.db.Valid()
      modifies pbEntityStore.db
      ensures pbEntityStore.db.Valid()
      ensures pbEntityStore.db.issued == old(pbEntityStore.db.issued) + 1
      ensures var (rows, e) := DeleteStmt(old(pbEntityStore.db.tables).policies, id, NotFoundMessage(id),
                                          DriverFault(pbEntityStore.db.faults, old(pbEntityStore.db.issued)));
              pbEntityStore.db.tables == old(pbEntityStore.db.tables).(policies := rows) && err == e
    {
      err := pbEntityStore.Delete(id);
    }
  }
}
