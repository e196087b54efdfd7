/** The subject store: rows (id, user_id) of the subjects table. */
module SubjectStore {
  import opened Wrappers
  import opened Table
  import opened Proto
  import opened Db
  import opened EntityStore

  /** database/sql's error for a single-row query that matches nothing. */
  const NoRowsMessage := "sql: no rows in result set"

  function NotInsertedMessage(s: Subject): string
  {
    "subject " + s.id + ":" + s.userId + " is not inserted"
  }

  function SubjectNotFoundMessage(id: string): string
  {
    "subject not found for id " + id
  }

  /** The scan of a subjects row into pb.Subject. */
  function ToPB(row: Row<string>): Subject
  {
    Subject(row.id, row.value)
  }

  /** The conversion TxBulkGet performs: the id is copied into UserId too. */
  function ToPBAsWritten(row: Row<string>): Subject
  {
    Subject(row.id, row.id)
  }

  /** TxGet: the row with the id, or the no-rows error. */
  function GetSubjectStmt(rows: seq<Row<string>>, id: string, fault: Option<Error>): (r: Result<Subject>)
    ensures fault.Some? ==> r == Err(fault.value)
    ensures fault.None? ==> (r.Ok? <==> id in Ids(rows))
    ensures fault.None? && r.Err? ==> r.error == Error(NoRowsMessage)
    ensures r.Ok? ==> r.value.id == id && Row(id, r.value.userId) in rows
  {
    if fault.Some? then Err(fault.value)
    else match Find(rows, id)
      case None => Err(Error(NoRowsMessage))
      case Some(userId) => Ok(Subject(id, userId))
  }

  /** The bulk query as evidently intended: one subject per stored row whose
      id is listed, in table order, carrying its stored user id. */
  function BulkGetStmt(rows: seq<Row<string>>, ids: seq<string>, fault: Option<Error>): (r: Result<seq<Subject>>)
    ensures ids == [] ==> r == Ok([])
    ensures ids != [] && fault.Some? ==> r == Err(fault.value)
    ensures r.Ok? ==> forall i | 0 <= i < |r.value| :: r.value[i].id in ids && Row(r.value[i].id, r.value[i].userId) in rows
    ensures r.Ok? ==> forall k | 0 <= k < |rows| :: rows[k].id in ids ==> ToPB(rows[k]) in r.value
  {
    if ids == [] then Ok([])
    else if fault.Some? then Err(fault.value)
    else
      var selected := Where(rows, IdIn(ids));
      var r := seq(|selected|, i requires 0 <= i < |selected| => ToPB(selected[i]));
      assert forall k | 0 <= k < |rows| :: rows[k].id in ids ==> ToPB(rows[k]) in r by {
        forall k | 0 <= k < |rows| && rows[k].id in ids ensures ToPB(rows[k]) in r {
          assert IdIn(ids)(rows[k]);
          var j :| 0 <= j < |selected| && selected[j] == rows[k];
          assert r[j] == ToPB(rows[k]);
        }
      }
      assert forall i | 0 <= i < |r| :: r[i].id in ids && Row(r[i].id, r[i].userId) in rows by {
        forall i | 0 <= i < |r| ensures r[i].id in ids && Row(r[i].id, r[i].userId) in rows {
          assert selected[i] in rows && IdIn(ids)(selected[i]);
        }
      }
      Ok(r)
  }

  /** The bulk query as written: the same rows, converted with ToPBAsWritten. */
  function BulkGetAsWritten(rows: seq<Row<string>>, ids: seq<string>, fault: Option<Error>): (r: Result<seq<Subject>>)
    ensures ids == [] ==> r == Ok([])
    ensures ids != [] && fault.Some? ==> r == Err(fault.value)
    ensures r.Ok? ==> forall i | 0 <= i < |r.value| :: r.value[i].userId == r.value[i].id
  {
    if ids == [] then Ok([])
    else if fault.Some? then Err(fault.value)
    else
      var selected := Where(rows, IdIn(ids));
      Ok(seq(|selected|, i requires 0 <= i < |selected| => ToPBAsWritten(selected[i])))
  }

  /** The two conversions agree on every id, in the same order: only the
      user ids differ. */
  lemma BulkGetIdsAgree(rows: seq<Row<string>>, ids: seq<string>, fault: Option<Error>)
    ensures BulkGetAsWritten(rows, ids, fault).Ok? <==> BulkGetStmt(rows, ids, fault).Ok?
    ensures BulkGetAsWritten(rows, ids, fault).Ok? ==>
            var w := BulkGetAsWritten(rows, ids, fault).value;
            var b := BulkGetStmt(rows, ids, fault).value;
            |w| == |b| && forall i | 0 <= i < |w| :: w[i].id == b[i].id
  {
  }

  /** A successful bulk get returns one subject per selected row, in table
      order, and under the primary key no id twice. */
  lemma BulkGetFound(rows: seq<Row<string>>, ids: seq<string>, fault: Option<Error>, subjects: seq<Subject>)
    requires UniqueIds(rows)
    requires BulkGetAsWritten(rows, ids, fault) == Ok(subjects)
    ensures |subjects| == |Where(rows, IdIn(ids))|
    ensures forall k | 0 <= k < |subjects| :: subjects[k].id == Where(rows, IdIn(ids))[k].id
    ensures forall a, b | 0 <= a < b < |subjects| :: subjects[a].id != subjects[b].id
  {
    var found := Where(rows, IdIn(ids));
    WhereKeepsUnique(rows, IdIn(ids));
    if ids == [] {
      WhereNone(rows, IdIn(ids));
    } else {
      assert subjects == seq(|found|, k requires 0 <= k < |found| => ToPBAsWritten(found[k]));
    }
  }

  /** A subject whose user id differs from its id comes back from the bulk
      get with the wrong user id. */
  lemma BulkGetLosesUserId()
    ensures BulkGetAsWritten([Row("s1", "u1")], ["s1"], None) == Ok([Subject("s1", "s1")])
    ensures BulkGetStmt([Row("s1", "u1")], ["s1"], None) == Ok([Subject("s1", "u1")])
  {
    var rows := [Row("s1", "u1")];
    assert IdIn(["s1"])(rows[0]);
    WhereKeepsAll(rows, IdIn(["s1"]));
    var w := BulkGetAsWritten(rows, ["s1"], None).value;
    assert |w| == 1 && w[0] == Subject("s1", "s1");
    assert w == [Subject("s1", "s1")];
    var b := BulkGetStmt(rows, ["s1"], None).value;
    assert |b| == 1 && b[0] == Subject("s1", "u1");
    assert b == [Subject("s1", "u1")];
  }

  /** TxPut's upsert: the new rows and the error TxPut reports. */
  function PutSubjectStmt(rows: seq<Row<string>>, s: Subject, fault: Option<Error>): (r: (seq<Row<string>>, Option<Error>))
    ensures fault.Some? ==> r == (rows, fault)
    ensures fault.None? ==> r.1.None? && Ids(r.0) == Ids(rows) + {s.id}
  {
    if fault.Some? then (rows, fault)
    else (Upsert(rows, s.id, s.userId), CheckErrorForRowsAffected(Some(Ok(UpsertRowsAffected)), NotInsertedMessage(s)))
  }

  /** Get after Put returns the subject just stored; other subjects are as
      they were, and the id stays unique. */
  lemma GetAfterPutSubject(rows: seq<Row<string>>, s: Subject, other: string)
    requires other != s.id
    ensures GetSubjectStmt(PutSubjectStmt(rows, s, None).0, s.id, None) == Ok(s)
    ensures GetSubjectStmt(PutSubjectStmt(rows, s, None).0, other, None) == GetSubjectStmt(rows, other, None)
    ensures UniqueIds(rows) ==> UniqueIds(PutSubjectStmt(rows, s, None).0)
  {
    FindAfterUpsert(rows, s.id, s.userId);
    FindOtherAfterUpsert(rows, s.id, s.userId, other);
    UpsertFrame(rows, s.id, s.userId);
  }

  /** SQLSubjectStore: a database handle. The non-transactional Get, Put and
      Delete run the same statements on the handle itself. */
  class SQLSubjectStore {
    const db: Database

    constructor (db: Database)
      ensures this.db == db
    {
      this.db := db;
    }

    method TxGet(id: string) returns (r: Result<Subject>)
      modifies db`issued
      ensures db.issued == old(db.issued) + 1
      ensures r == GetSubjectStmt(db.tables.subjects, id, DriverFault(db.faults, old(db.issued)))
    {
      var fault := db.Issue();
      r := GetSubjectStmt(db.tables.subjects, id, fault);
    }

    /** TxBulkGet: no query for an empty list; otherwise one query and a loop
        that fills a slice of the result's length. */
    method TxBulkGet(ids: seq<string>) returns (r: Result<seq<Subject>>)
      modifies db`issued
      ensures db.issued == old(db.issued) + (if ids == [] then 0 else 1)
      ensures r == BulkGetAsWritten(db.tables.subjects, ids, DriverFault(db.faults, old(db.issued)))
    {
      if ids == [] {
        return Ok([]);
      }
      var fault := db.Issue();
      if fault.Some? {
        return Err(fault.value);
      }
      var subjects := Where(db.tables.subjects, IdIn(ids));
      var pbSubjects := new Subject[|subjects|](_ => Subject("", ""));
      for i := 0 to |subjects|
        modifies pbSubjects
        invariant forall k | 0 <= k < i :: pbSubjects[k] == ToPBAsWritten(subjects[k])
      {
        pbSubjects[i] := ToPBAsWritten(subjects[i]);
      }
      assert pbSubjects[..] == seq(|subjects|, i requires 0 <= i < |subjects| => ToPBAsWritten(subjects[i]));
      r := Ok(pbSubjects[..]);
    }

    /** TxPut: an empty id is replaced by a fresh one; the row is upserted. */
    method TxPut(subject: Subject) returns (ret: Subject, err: Option<Error>)
      requires db.Valid()
      modifies db
      ensures db.Valid()
      ensures ret.userId == subject.userId
      ensures subject.id != "" ==> ret.id == subject.id
      ensures subject.id == "" ==> ret.id != "" && ret.id !in old(db.tables).UsedIds()
      ensures db.issued == old(db.issued) + 1
      ensures var (rows, e) := PutSubjectStmt(old(db.tables).subjects, ret, DriverFault(db.faults, old(db.issued)));
              db.tables == old(db.tables).(subjects := rows) && err == e
    {
      ret := subject;
      if subject.id == "" {
        var id := db.NewUuid();
        ret := subject.(id := id);
      }
      var fault := db.Issue();
      UpsertFrame(db.tables.subjects, ret.id, ret.userId);
      var (rows, e) := PutSubjectStmt(db.tables.subjects, ret, fault);
      db.tables := db.tables.(subjects := rows);
      err := e;
    }

    method TxDelete(id: string) returns (err: Option<Error>)
      requires db.Valid()
      modifies db
      ensures db.Valid()
      ensures db.issued == old(db.issued) + 1
      ensures var (rows, e) := DeleteStmt(old(db.tables).subjects, id, SubjectNotFoundMessage(id), DriverFault(db.faults, old(db.issued)));
              db.tables == old(db.tables).(subjects := rows) && err == e
    {
      var fault := db.Issue();
      RemoveIdIsWhere(db.tables.subjects, id);
      WhereKeepsUnique(db.tables.subjects, NotId(id));
      var (rows, e) := DeleteStmt(db.tables.subjects, id, SubjectNotFoundMessage(id), fault);
      db.tables := db.tables.(subjects := rows);
      err := e;
    }
  }
}
