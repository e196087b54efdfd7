/** The relational database every store shares: the four tables of the
    schema, and the driver through which each statement is executed. */
module Db {
  import opened Wrappers
  import opened Table
  import opened Proto

  /** The non-key columns `(subject_id, group_id)` of a contracts row. */
  datatype Link = Link(subjectId: string, groupId: string)

  /** The `tableName` an entity store is opened on. */
  datatype EntityTable = GroupsTable | PoliciesTable

  /** subjects(id, user_id), groups(id, payload), policies(id, payload),
      contracts(id, subject_id, group_id). */
  datatype Tables = Tables(
    subjects: seq<Row<string>>,
    groups: seq<Row<Payload>>,
    policies: seq<Row<Payload>>,
    contracts: seq<Row<Link>>)
  {
    /** Primary keys are unique, and at most one contract binds a
        (subject, group) pair. */
    ghost predicate Valid()
    {
      && UniqueIds(subjects) && UniqueIds(groups) && UniqueIds(policies)
      && UniqueIds(contracts) && UniqueValues(contracts)
    }

    function Entities(t: EntityTable): seq<Row<Payload>>
    {
      match t
      case GroupsTable => groups
      case PoliciesTable => policies
    }

    function WithEntities(t: EntityTable, rows: seq<Row<Payload>>): (r: Tables)
      ensures r.Entities(t) == rows
      ensures r.subjects == subjects && r.contracts == contracts
      ensures forall u: EntityTable | u != t :: r.Entities(u) == Entities(u)
      ensures Valid() && UniqueIds(rows) ==> r.Valid()
    {
      match t
      case GroupsTable => this.(groups := rows)
      case PoliciesTable => this.(policies := rows)
    }

    /** Every identifier the database mentions, in a key or in a contract's columns. */
    function UsedIds(): set<string>
    {
      Ids(subjects) + Ids(groups) + Ids(policies) + Ids(contracts)
      + (set i | 0 <= i < |contracts| :: contracts[i].value.subjectId)
      + (set i | 0 <= i < |contracts| :: contracts[i].value.groupId)
    }
  }

  const EmptyTables := Tables([], [], [], [])

  /** What a sequence of statements leaves behind: the tables, how many
      statements have been issued, and the operation's result. */
  datatype Effect<R> = Effect(tables: Tables, issued: nat, result: R)

  /** The driver's answer to statement number `n`: an error when the oracle
      says that statement fails. */
  function DriverFault(faults: map<nat, string>, n: nat): (r: Option<Error>)
    ensures r.Some? <==> n in faults
  {
    if n in faults then Some(Error(faults[n])) else None
  }

  /** Some statement numbered `from` up to (not including) `to` fails. */
  predicate Faulted(faults: map<nat, string>, from: nat, to: nat)
  {
    exists k | from <= k < to :: k in faults
  }

  /** A run of statements fails somewhere exactly when one of its two parts does. */
  lemma FaultedSplit(faults: map<nat, string>, a: nat, b: nat, c: nat)
    requires a <= b <= c
    ensures Faulted(faults, a, c) <==> Faulted(faults, a, b) || Faulted(faults, b, c)
  {
    if Faulted(faults, a, c) {
      var k :| a <= k < c && k in faults;
      if k < b {
        assert a <= k < b && k in faults;
      } else {
        assert b <= k < c && k in faults;
      }
    }
  }

  /** A run of statements fails when one of them does. */
  lemma FaultedAt(faults: map<nat, string>, from: nat, k: nat, to: nat)
    requires from <= k < to && k in faults
    ensures Faulted(faults, from, to)
  {
  }

  /** Two runs of two statements each, none of which fails. */
  lemma NotFaultedTwice(faults: map<nat, string>, n: nat, m: nat)
    requires m == n + 2
    requires n !in faults && n + 1 !in faults && m !in faults && m + 1 !in faults
    ensures !Faulted(faults, n, m + 2)
  {
  }

  /** The columns of every contract row are identifiers the database uses. */
  lemma LinkIdsUsed(t: Tables, j: nat)
    requires j < |t.contracts|
    ensures t.contracts[j].value.subjectId in t.UsedIds()
    ensures t.contracts[j].value.groupId in t.UsedIds()
  {
  }

  class Database {
    var tables: Tables
    /** How many statements have been executed so far. */
    var issued: nat
    /** Which statements the driver fails, and with what message. */
    const faults: map<nat, string>

    ghost predicate Valid()
      reads this
    {
      tables.Valid()
    }

    constructor (faults: map<nat, string>)
      ensures tables == EmptyTables && issued == 0 && this.faults == faults
      ensures Valid()
    {
      tables := EmptyTables;
      issued := 0;
      this.faults := faults;
    }

    /** Hands the next statement to the driver. */
    method Issue() returns (fault: Option<Error>)
      modifies this`issued
      ensures issued == old(issued) + 1
      ensures fault == DriverFault(faults, old(issued))
    {
      fault := DriverFault(faults, issued);
      issued := issued + 1;
    }

    /** `uuid.NewV4()`: an identifier no table mentions yet. */
    method NewUuid() returns (id: string)
      ensures id != "" && id !in tables.UsedIds()
    {
      var used := tables.UsedIds();
      id := "0";
      while id in used
        invariant id != ""
        decreases set x | x in used && |x| >= |id|
      {
        ghost var before := set x | x in used && |x| >= |id|;
        id := id + "0";
        ghost var after := set x | x in used && |x| >= |id|;
        assert after <= before;
        assert id[..|id| - 1] in before && id[..|id| - 1] !in after;
      }
    }
  }
}
