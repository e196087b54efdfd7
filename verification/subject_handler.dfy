/** The subject handler: subjects together with the contracts and groups
    that hang off them. Each transactional operation snapshots the tables and
    restores the snapshot when its callback fails. */
module SubjectHandler {
  import opened Wrappers
  import opened Table
  import opened Proto
  import opened Db
  import opened EntityStore
  import CS = ContractStore
  import SubjectStore
  import GroupStore

  /** How many contracts of a group may remain, once the departing subject's
      contract is deleted, for DeleteSubject to delete the group: the count
      the cleanup loop tests. */
  const ZombieCountAsWritten: nat := 1
  /** The count that matches the loop's stated aim, a group no other subject
      references. */
  const ZombieCountIntended: nat := 0

  /** Every contract names a group that is stored. */
  ghost predicate GroupsReferenced(t: Tables)
  {
    forall i | 0 <= i < |t.contracts| :: t.contracts[i].value.groupId in Ids(t.groups)
  }

  /** The group ids the given contracts name. */
  function GroupsOf(cs: seq<CS.ContractRow>): set<string>
  {
    set j | 0 <= j < |cs| :: cs[j].value.groupId
  }

  /** One pass of DeleteSubject's cleanup loop over contract `c`: delete it
      (a failure is only logged), list the contracts left on its group (a
      failure moves on to the next contract), and delete the group when
      exactly `zombieCount` are left (a failure is only logged). */
  function CleanupStep(t: Tables, n: nat, faults: map<nat, string>, c: CS.ContractRow, zombieCount: nat): (r: (Tables, nat))
    ensures r.0.subjects == t.subjects && r.0.policies == t.policies
    ensures n + 2 <= r.1 <= n + 3
    ensures forall x | x in r.0.contracts :: x in t.contracts
    ensures forall x | x in t.contracts && x.id != c.id :: x in r.0.contracts
    ensures n !in faults ==> c.id !in Ids(r.0.contracts)
    ensures forall x | x in r.0.groups :: x in t.groups
    ensures forall x | x in t.groups && x.id != c.value.groupId :: x in r.0.groups
    ensures zombieCount == 0 && c.value.groupId !in Ids(r.0.groups) && c.value.groupId in Ids(t.groups) ==>
              forall i | 0 <= i < |r.0.contracts| :: r.0.contracts[i].value.groupId != c.value.groupId
  {
    var (contracts, _) := DeleteStmt(t.contracts, c.id, CS.NoRecordForIdMessage(c.id), DriverFault(faults, n));
    var t1 := t.(contracts := contracts);
    match CS.ListStmt(contracts, CS.GroupIs(c.value.groupId), DriverFault(faults, n + 1))
    case Err(_) => (t1, n + 2)
    case Ok(byGroup) =>
      if |byGroup| == zombieCount then
        var (groups, _) := DeleteStmt(t1.groups, c.value.groupId, NotFoundMessage(c.value.groupId), DriverFault(faults, n + 2));
        (t1.(groups := groups), n + 3)
      else (t1, n + 2)
  }

  /** The whole cleanup loop over the subject's contracts, in listing order. */
  function Cleanup(t: Tables, n: nat, faults: map<nat, string>, cs: seq<CS.ContractRow>, zombieCount: nat): (r: (Tables, nat))
    ensures r.0.subjects == t.subjects && r.0.policies == t.policies
    ensures n <= r.1
    decreases |cs|
  {
    if cs == [] then (t, n)
    else
      var (t1, n1) := CleanupStep(t, n, faults, cs[0], zombieCount);
      Cleanup(t1, n1, faults, cs[1..], zombieCount)
  }

  lemma GroupsOfCons(cs: seq<CS.ContractRow>)
    requires cs != []
    ensures GroupsOf(cs) == {cs[0].value.groupId} + GroupsOf(cs[1..])
  {
    forall g | g in GroupsOf(cs) ensures g in {cs[0].value.groupId} + GroupsOf(cs[1..]) {
      var j :| 0 <= j < |cs| && cs[j].value.groupId == g;
      if j > 0 {
        assert cs[1..][j - 1] == cs[j];
      }
    }
    forall g | g in GroupsOf(cs[1..]) ensures g in GroupsOf(cs) {
      var j :| 0 <= j < |cs[1..]| && cs[1..][j].value.groupId == g;
      assert cs[j + 1] == cs[1..][j];
    }
  }

  /** The cleanup only removes contracts, and keeps those not listed. */
  lemma {:induction false} CleanupKeepsContracts(t: Tables, n: nat, faults: map<nat, string>, cs: seq<CS.ContractRow>,
                                                  zombieCount: nat)
    ensures var r := Cleanup(t, n, faults, cs, zombieCount).0;
            && (forall x | x in r.contracts :: x in t.contracts)
            && (forall x | x in t.contracts && x.id !in Ids(cs) :: x in r.contracts)
    decreases |cs|
  {
    if cs != [] {
      var (t1, n1) := CleanupStep(t, n, faults, cs[0], zombieCount);
      CleanupKeepsContracts(t1, n1, faults, cs[1..], zombieCount);
      IdsCons(cs[0], cs[1..]);
      assert cs == [cs[0]] + cs[1..];
    }
  }

  /** The cleanup only removes groups, and keeps those no listed contract names. */
  lemma {:induction false} CleanupKeepsGroups(t: Tables, n: nat, faults: map<nat, string>, cs: seq<CS.ContractRow>,
                                               zombieCount: nat)
    ensures var r := Cleanup(t, n, faults, cs, zombieCount).0;
            && (forall x | x in r.groups :: x in t.groups)
            && (forall x | x in t.groups && x.id !in GroupsOf(cs) :: x in r.groups)
    decreases |cs|
  {
    if cs != [] {
      var (t1, n1) := CleanupStep(t, n, faults, cs[0], zombieCount);
      CleanupKeepsGroups(t1, n1, faults, cs[1..], zombieCount);
      GroupsOfCons(cs);
    }
  }

  /** When the driver fails none of its statements, the cleanup deletes
      every listed contract. */
  lemma {:induction false} CleanupRemovesContracts(t: Tables, n: nat, faults: map<nat, string>, cs: seq<CS.ContractRow>,
                                                    zombieCount: nat)
    ensures var r := Cleanup(t, n, faults, cs, zombieCount);
            !Faulted(faults, n, r.1) ==> forall i | 0 <= i < |r.0.contracts| :: r.0.contracts[i].id !in Ids(cs)
    decreases |cs|
  {
    var r := Cleanup(t, n, faults, cs, zombieCount);
    if cs != [] && !Faulted(faults, n, r.1) {
      var (t1, n1) := CleanupStep(t, n, faults, cs[0], zombieCount);
      FaultedSplit(faults, n, n1, r.1);
      CleanupRemovesContracts(t1, n1, faults, cs[1..], zombieCount);
      CleanupKeepsContracts(t1, n1, faults, cs[1..], zombieCount);
      IdsCons(cs[0], cs[1..]);
      assert cs == [cs[0]] + cs[1..];
      forall i | 0 <= i < |r.0.contracts| ensures r.0.contracts[i].id != cs[0].id {
        assert r.0.contracts[i] in t1.contracts;
        assert n !in faults;
      }
    }
  }

  /** DeleteSubject: in one transaction, list the subject's contracts, delete
      the subject, then run the cleanup loop; the transaction commits unless
      the listing or the subject's deletion fails. */
  function DeleteSubjectSpec(t: Tables, n: nat, faults: map<nat, string>, subjectId: string,
                             zombieCount: nat): (r: Effect<Option<Error>>)
    ensures r.result.Some? ==> r.tables == t
    ensures r.result.None? <==> n !in faults && n + 1 !in faults && subjectId in Ids(t.subjects)
    ensures n !in faults && n + 1 !in faults && subjectId !in Ids(t.subjects) ==>
              r.result == Some(Error(SubjectStore.SubjectNotFoundMessage(subjectId)))
    ensures r.result.None? ==> Ids(r.tables.subjects) == Ids(t.subjects) - {subjectId}
    ensures forall i | 0 <= i < |t.subjects| :: t.subjects[i].id != subjectId ==> t.subjects[i] in r.tables.subjects
    ensures r.tables.policies == t.policies
  {
    match CS.ListStmt(t.contracts, CS.SubjectIs(subjectId), DriverFault(faults, n))
    case Err(e) => Effect(t, n + 1, Some(e))
    case Ok(contracts) =>
      var (subjects, e) := DeleteStmt(t.subjects, subjectId, SubjectStore.SubjectNotFoundMessage(subjectId), DriverFault(faults, n + 1));
      if e.Some? then Effect(t, n + 2, e)
      else
        var (t2, n2) := Cleanup(t.(subjects := subjects), n + 2, faults, contracts, zombieCount);
        Effect(t2, n2, None)
  }

  /** A failed listing rolls DeleteSubject back after one statement. */
  lemma DeleteSubjectListFails(t: Tables, n: nat, faults: map<nat, string>, subjectId: string, zombieCount: nat,
                               e: Error)
    requires CS.ListStmt(t.contracts, CS.SubjectIs(subjectId), DriverFault(faults, n)) == Err(e)
    ensures DeleteSubjectSpec(t, n, faults, subjectId, zombieCount) == Effect(t, n + 1, Some(e))
  {
  }

  /** A failed deletion of the subject rolls DeleteSubject back after two
      statements. */
  lemma DeleteSubjectDeleteFails(t: Tables, n: nat, faults: map<nat, string>, subjectId: string, zombieCount: nat,
                                 contracts: seq<CS.ContractRow>, subjects: seq<Row<string>>, e: Error)
    requires CS.ListStmt(t.contracts, CS.SubjectIs(subjectId), DriverFault(faults, n)) == Ok(contracts)
    requires DeleteStmt(t.subjects, subjectId, SubjectStore.SubjectNotFoundMessage(subjectId), DriverFault(faults, n + 1))
             == (subjects, Some(e))
    ensures DeleteSubjectSpec(t, n, faults, subjectId, zombieCount) == Effect(t, n + 2, Some(e))
  {
  }

  /** When the listing and the subject's deletion succeed, DeleteSubject is
      the cleanup of the listed contracts on the tables without the subject. */
  lemma DeleteSubjectUnfold(t: Tables, n: nat, faults: map<nat, string>, subjectId: string, zombieCount: nat,
                            contracts: seq<CS.ContractRow>, subjects: seq<Row<string>>)
    requires CS.ListStmt(t.contracts, CS.SubjectIs(subjectId), DriverFault(faults, n)) == Ok(contracts)
    requires DeleteStmt(t.subjects, subjectId, SubjectStore.SubjectNotFoundMessage(subjectId), DriverFault(faults, n + 1))
             == (subjects, None)
    ensures DeleteSubjectSpec(t, n, faults, subjectId, zombieCount)
            == Effect(Cleanup(t.(subjects := subjects), n + 2, faults, contracts, zombieCount).0,
                      Cleanup(t.(subjects := subjects), n + 2, faults, contracts, zombieCount).1, None)
  {
  }

  /** A committed DeleteSubject is the cleanup of the listed contracts run on
      the tables without the subject. */
  lemma DeleteSubjectCommitted(t: Tables, n: nat, faults: map<nat, string>, subjectId: string, zombieCount: nat)
    ensures var r := DeleteSubjectSpec(t, n, faults, subjectId, zombieCount);
            r.result.None? ==>
              r.tables == Cleanup(t.(subjects := RemoveId(t.subjects, subjectId)), n + 2, faults,
                                  Where(t.contracts, CS.SubjectIs(subjectId)), zombieCount).0
  {
  }

  /** DeleteSubject only removes contracts, and keeps those of other subjects. */
  lemma DeleteSubjectKeepsOtherContracts(t: Tables, n: nat, faults: map<nat, string>, subjectId: string, zombieCount: nat)
    requires UniqueIds(t.contracts)
    ensures var r := DeleteSubjectSpec(t, n, faults, subjectId, zombieCount).tables;
            && (forall i | 0 <= i < |r.contracts| :: r.contracts[i] in t.contracts)
            && (forall i | 0 <= i < |t.contracts| :: t.contracts[i].value.subjectId != subjectId ==> t.contracts[i] in r.contracts)
  {
    var r := DeleteSubjectSpec(t, n, faults, subjectId, zombieCount);
    var contracts := Where(t.contracts, CS.SubjectIs(subjectId));
    var t1 := t.(subjects := RemoveId(t.subjects, subjectId));
    DeleteSubjectCommitted(t, n, faults, subjectId, zombieCount);
    if r.result.None? {
      CleanupKeepsContracts(t1, n + 2, faults, contracts, zombieCount);
      OtherContractsNotListed(t.contracts, subjectId);
    }
  }

  /** DeleteSubject only removes groups, and keeps those that none of the
      subject's contracts names. */
  lemma DeleteSubjectKeepsOtherGroups(t: Tables, n: nat, faults: map<nat, string>, subjectId: string, zombieCount: nat)
    ensures var r := DeleteSubjectSpec(t, n, faults, subjectId, zombieCount).tables;
            && (forall i | 0 <= i < |r.groups| :: r.groups[i] in t.groups)
            && (forall i | 0 <= i < |t.groups| :: t.groups[i].id !in CS.GroupIdsOf(t.contracts, subjectId) ==> t.groups[i] in r.groups)
  {
    var r := DeleteSubjectSpec(t, n, faults, subjectId, zombieCount);
    var contracts := Where(t.contracts, CS.SubjectIs(subjectId));
    var t1 := t.(subjects := RemoveId(t.subjects, subjectId));
    DeleteSubjectCommitted(t, n, faults, subjectId, zombieCount);
    if r.result.None? {
      CleanupKeepsGroups(t1, n + 2, faults, contracts, zombieCount);
      ListingHoldsSubject(t, subjectId);
    }
  }

  /** Under the primary key, a contract of another subject shares its id with
      no contract of the listing. */
  lemma OtherContractsNotListed(rows: seq<CS.ContractRow>, subjectId: string)
    requires UniqueIds(rows)
    ensures forall i | 0 <= i < |rows| && rows[i].value.subjectId != subjectId ::
              rows[i].id !in Ids(Where(rows, CS.SubjectIs(subjectId)))
  {
    var listed := Where(rows, CS.SubjectIs(subjectId));
    forall i | 0 <= i < |rows| && rows[i].value.subjectId != subjectId
      ensures rows[i].id !in Ids(listed)
    {
      forall j | 0 <= j < |listed| ensures listed[j].id != rows[i].id {
        assert listed[j] in rows && listed[j].value.subjectId == subjectId;
      }
    }
  }

  /** The listing DeleteSubject runs holds every contract of the subject,
      and names exactly the groups of the subject's contracts. */
  lemma ListingHoldsSubject(t: Tables, subjectId: string)
    ensures var listed := Where(t.contracts, CS.SubjectIs(subjectId));
            forall i | 0 <= i < |t.contracts| :: t.contracts[i].value.subjectId == subjectId ==> t.contracts[i].id in Ids(listed)
    ensures GroupsOf(Where(t.contracts, CS.SubjectIs(subjectId))) == CS.GroupIdsOf(t.contracts, subjectId)
  {
    var listed := Where(t.contracts, CS.SubjectIs(subjectId));
    forall i | 0 <= i < |t.contracts| && t.contracts[i].value.subjectId == subjectId
      ensures t.contracts[i].id in Ids(listed)
    {
      assert CS.SubjectIs(subjectId)(t.contracts[i]);
      var j :| 0 <= j < |listed| && listed[j] == t.contracts[i];
    }
    forall g | g in GroupsOf(listed) ensures g in CS.GroupIdsOf(t.contracts, subjectId) {
      var j :| 0 <= j < |listed| && listed[j].value.groupId == g;
      assert listed[j] in t.contracts && CS.SubjectIs(subjectId)(listed[j]);
      var k :| 0 <= k < |t.contracts| && t.contracts[k] == listed[j];
    }
    forall g | g in CS.GroupIdsOf(t.contracts, subjectId) ensures g in GroupsOf(listed) {
      var i :| 0 <= i < |t.contracts| && t.contracts[i].value.subjectId == subjectId && t.contracts[i].value.groupId == g;
      assert CS.SubjectIs(subjectId)(t.contracts[i]);
      var j :| 0 <= j < |listed| && listed[j] == t.contracts[i];
    }
  }

  /** A committed DeleteSubject during which the driver fails nothing leaves
      no contract of the subject behind. */
  lemma DeleteSubjectRemovesContracts(t: Tables, n: nat, faults: map<nat, string>, subjectId: string, zombieCount: nat)
    ensures var r := DeleteSubjectSpec(t, n, faults, subjectId, zombieCount);
            r.result.None? && !Faulted(faults, n, r.issued) ==>
              forall i | 0 <= i < |r.tables.contracts| :: r.tables.contracts[i].value.subjectId != subjectId
  {
    var r := DeleteSubjectSpec(t, n, faults, subjectId, zombieCount);
    if r.result.None? && !Faulted(faults, n, r.issued) {
      var contracts := Where(t.contracts, CS.SubjectIs(subjectId));
      var (subjects, e) := DeleteStmt(t.subjects, subjectId, SubjectStore.SubjectNotFoundMessage(subjectId), DriverFault(faults, n + 1));
      var t1 := t.(subjects := subjects);
      CleanupRemovesContracts(t1, n + 2, faults, contracts, zombieCount);
      CleanupKeepsContracts(t1, n + 2, faults, contracts, zombieCount);
      FaultedSplit(faults, n, n + 2, r.issued);
      ListingHoldsSubject(t, subjectId);
      forall i | 0 <= i < |r.tables.contracts| ensures r.tables.contracts[i].value.subjectId != subjectId {
        assert r.tables.contracts[i] in t.contracts;
        var k :| 0 <= k < |t.contracts| && t.contracts[k] == r.tables.contracts[i];
      }
    }
  }

  /** With the intended count, the cleanup never deletes a group that a
      remaining contract still names. */
  lemma {:induction false} IntendedCleanupKeepsReferences(t: Tables, n: nat, faults: map<nat, string>, cs: seq<CS.ContractRow>)
    requires GroupsReferenced(t)
    ensures GroupsReferenced(Cleanup(t, n, faults, cs, ZombieCountIntended).0)
    decreases |cs|
  {
    if cs != [] {
      var (t1, n1) := CleanupStep(t, n, faults, cs[0], ZombieCountIntended);
      forall i | 0 <= i < |t1.contracts| ensures t1.contracts[i].value.groupId in Ids(t1.groups) {
        var g := t1.contracts[i].value.groupId;
        assert t1.contracts[i] in t.contracts;
        if g != cs[0].value.groupId {
          var j :| 0 <= j < |t.groups| && t.groups[j].id == g;
          assert t.groups[j] in t1.groups;
        }
      }
      IntendedCleanupKeepsReferences(t1, n1, faults, cs[1..]);
    }
  }

  /** With the intended count, DeleteSubject keeps every remaining contract's
      group. */
  lemma IntendedDeleteSubjectKeepsReferences(t: Tables, n: nat, faults: map<nat, string>, subjectId: string)
    requires GroupsReferenced(t)
    ensures GroupsReferenced(DeleteSubjectSpec(t, n, faults, subjectId, ZombieCountIntended).tables)
  {
    if n !in faults {
      var contracts := Where(t.contracts, CS.SubjectIs(subjectId));
      var (subjects, e) := DeleteStmt(t.subjects, subjectId, SubjectStore.SubjectNotFoundMessage(subjectId), DriverFault(faults, n + 1));
      if e.None? {
        IntendedCleanupKeepsReferences(t.(subjects := subjects), n + 2, faults, contracts);
      }
    }
  }

  const PayloadG := GroupPayload(Group("G", []))
  const PayloadH := GroupPayload(Group("H", []))

  /** Subjects A and B each hold a contract on group G. */
  const SharedGroup := Tables(
    [Row("A", "alice"), Row("B", "bob")], [Row("G", PayloadG)], [],
    [Row("c1", Link("A", "G")), Row("c2", Link("B", "G"))])

  /** Only subject A holds a contract on group H. */
  const SoleGroup := Tables([Row("A", "alice")], [Row("H", PayloadH)], [], [Row("c3", Link("A", "H"))])

  /** The listing and the subject's deletion for subject A of SharedGroup. */
  lemma SharedGroupPrefix()
    ensures Where(SharedGroup.contracts, CS.SubjectIs("A")) == [Row("c1", Link("A", "G"))]
    ensures "A" in Ids(SharedGroup.subjects)
    ensures RemoveId(SharedGroup.subjects, "A") == [Row("B", "bob")]
    ensures RemoveId(SharedGroup.contracts, "c1") == [Row("c2", Link("B", "G"))]
    ensures Where([Row("c2", Link("B", "G"))], CS.GroupIs("G")) == [Row("c2", Link("B", "G"))]
  {
    var t := SharedGroup;
    assert t.contracts[1..] == [t.contracts[1]] && t.contracts[1..][1..] == [];
    assert t.subjects[1..] == [t.subjects[1]] && t.subjects[1..][1..] == [];
    assert t.subjects[0].id in Ids(t.subjects);
    var c2 := [Row("c2", Link("B", "G"))];
    assert c2[1..] == [];
  }

  /** The listing and the subject's deletion for subject A of SoleGroup. */
  lemma SoleGroupPrefix()
    ensures Where(SoleGroup.contracts, CS.SubjectIs("A")) == SoleGroup.contracts
    ensures "A" in Ids(SoleGroup.subjects)
    ensures RemoveId(SoleGroup.subjects, "A") == []
    ensures RemoveId(SoleGroup.contracts, "c3") == []
    ensures Where([], CS.GroupIs("H")) == []
  {
    var t := SoleGroup;
    assert t.contracts[1..] == [] && t.subjects[1..] == [];
    assert t.subjects[0].id in Ids(t.subjects);
  }

  /** As written, deleting subject A of SharedGroup deletes group G although
      subject B's contract still names it. */
  lemma SharedGroupDeletedAsWritten()
    ensures GroupsReferenced(SharedGroup)
    ensures DeleteSubjectSpec(SharedGroup, 0, map[], "A", ZombieCountAsWritten)
            == Effect(Tables([Row("B", "bob")], [], [], [Row("c2", Link("B", "G"))]), 5, None)
    ensures !GroupsReferenced(DeleteSubjectSpec(SharedGroup, 0, map[], "A", ZombieCountAsWritten).tables)
  {
    SharedGroupPrefix();
    var t := SharedGroup;
    assert t.groups[0].id in Ids(t.groups);
    var rest := [Row("c2", Link("B", "G"))];
    assert t.groups[0].id in Ids(t.groups);
    var t0 := t.(subjects := [Row("B", "bob")]);
    var t1 := t0.(contracts := rest, groups := []);
    assert RemoveId(t.groups, "G") == [] by {
      assert t.groups[1..] == [];
    }
    assert CleanupStep(t0, 2, map[], Row("c1", Link("A", "G")), ZombieCountAsWritten) == (t1, 5);
    assert [Row("c1", Link("A", "G"))][1..] == [];
  }

  /** As written, deleting subject A of SoleGroup leaves group H behind with
      no contract naming it. */
  lemma SoleGroupOrphanedAsWritten()
    ensures DeleteSubjectSpec(SoleGroup, 0, map[], "A", ZombieCountAsWritten)
            == Effect(Tables([], [Row("H", PayloadH)], [], []), 4, None)
  {
    SoleGroupPrefix();
    var t0 := SoleGroup.(subjects := []);
    assert CleanupStep(t0, 2, map[], Row("c3", Link("A", "H")), ZombieCountAsWritten) == (t0.(contracts := []), 4);
    assert SoleGroup.contracts[1..] == [];
  }

  /** With the intended count, deleting subject A of SharedGroup keeps group G. */
  lemma SharedGroupKeptIntended()
    ensures DeleteSubjectSpec(SharedGroup, 0, map[], "A", ZombieCountIntended)
            == Effect(Tables([Row("B", "bob")], [Row("G", PayloadG)], [], [Row("c2", Link("B", "G"))]), 4, None)
  {
    SharedGroupPrefix();
    var t0 := SharedGroup.(subjects := [Row("B", "bob")]);
    assert CleanupStep(t0, 2, map[], Row("c1", Link("A", "G")), ZombieCountIntended)
           == (t0.(contracts := [Row("c2", Link("B", "G"))]), 4);
    assert [Row("c1", Link("A", "G"))][1..] == [];
  }

  /** With the intended count, deleting subject A of SoleGroup deletes group H. */
  lemma SoleGroupDeletedIntended()
    ensures DeleteSubjectSpec(SoleGroup, 0, map[], "A", ZombieCountIntended) == Effect(EmptyTables, 5, None)
  {
    SoleGroupPrefix();
    var t := SoleGroup;
    assert t.groups[0].id in Ids(t.groups);
    assert RemoveId(t.groups, "H") == [] by {
      assert t.groups[1..] == [];
    }
    var t0 := t.(subjects := []);
    assert CleanupStep(t0, 2, map[], Row("c3", Link("A", "H")), ZombieCountIntended) == (EmptyTables, 5);
    assert t.contracts[1..] == [];
  }

  /** The filter `user_id = $1` over the subjects table. */
  function UserIs(userId: string): Row<string> -> bool
  {
    (row: Row<string>) => row.value == userId
  }

  /** FindSubjectsByUserID's query: every subject of the user, in table order. */
  function FindByUserStmt(rows: seq<Row<string>>, userId: string, fault: Option<Error>): (r: Result<seq<Subject>>)
    ensures fault.Some? <==> r.Err?
    ensures fault.Some? ==> r.error == fault.value
    ensures r.Ok? ==> forall i | 0 <= i < |r.value| :: r.value[i].userId == userId && Row(r.value[i].id, userId) in rows
    ensures r.Ok? ==> forall k | 0 <= k < |rows| :: rows[k].value == userId ==> Subject(rows[k].id, userId) in r.value
  {
    if fault.Some? then Err(fault.value)
    else
      var selected := Where(rows, UserIs(userId));
      var r := seq(|selected|, i requires 0 <= i < |selected| => SubjectStore.ToPB(selected[i]));
      assert forall k | 0 <= k < |rows| :: rows[k].value == userId ==> Subject(rows[k].id, userId) in r by {
        forall k | 0 <= k < |rows| && rows[k].value == userId ensures Subject(rows[k].id, userId) in r {
          assert UserIs(userId)(rows[k]);
          var j :| 0 <= j < |selected| && selected[j] == rows[k];
          assert r[j] == Subject(rows[k].id, userId);
        }
      }
      assert forall i | 0 <= i < |r| :: r[i].userId == userId && Row(r[i].id, userId) in rows by {
        forall i | 0 <= i < |r| ensures r[i].userId == userId && Row(r[i].id, userId) in rows {
          assert selected[i] in rows && UserIs(userId)(selected[i]);
        }
      }
      Ok(r)
  }

  /** The rows a list of created contracts adds to the contracts table. */
  function ContractRows(cs: seq<Contract>): (r: seq<CS.ContractRow>)
    ensures |r| == |cs|
    ensures forall k | 0 <= k < |cs| :: r[k] == Row(cs[k].id, Link(cs[k].subjectId, cs[k].groupId))
  {
    seq(|cs|, k requires 0 <= k < |cs| => Row(cs[k].id, Link(cs[k].subjectId, cs[k].groupId)))
  }

  /** pb.CreateGroupForSubjectsResponse. */
  datatype GroupForSubjects = GroupForSubjects(group: Group, contracts: seq<Contract>)

  /** pb.AddSubjectWithAttributesResponse. */
  datatype SubjectWithAttributes = SubjectWithAttributes(subject: Subject, group: Group, contractId: string)

  /** Storing a subject and then a group, each under an id the database does
      not use yet, appends one row to each table; the two ids differ. */
  lemma FreshSubjectAndGroup(t0: Tables, t1: Tables, t2: Tables, s: Subject, g: Group)
    requires s.id !in t0.UsedIds()
    requires t1 == t0.(subjects := SubjectStore.PutSubjectStmt(t0.subjects, s, None).0)
    requires g.id !in t1.UsedIds()
    requires t2 == t1.(groups := PutStmt(t1.groups, GroupStore.GroupEntity(g), None).0)
    ensures s.id != g.id && g.id !in t0.UsedIds()
    ensures t2 == t0.(subjects := t0.subjects + [Row(s.id, s.userId)], groups := t0.groups + [Row(g.id, MarshalGroup(g))])
    ensures forall j | 0 <= j < |t2.contracts| :: t2.contracts[j].value != Link(s.id, g.id)
  {
    IdsAppend(t0.subjects, Row(s.id, s.userId));
    assert s.id in Ids(t1.subjects);
    forall j | 0 <= j < |t2.contracts| ensures t2.contracts[j].value != Link(s.id, g.id) {
      LinkIdsUsed(t0, j);
    }
  }

  class Handler {
    const store: SubjectStore.SQLSubjectStore
    const contractStore: CS.ContractStore
    const groupStore: GroupStore.SQLGroupStore

    constructor (store: SubjectStore.SQLSubjectStore, contractStore: CS.ContractStore, groupStore: GroupStore.SQLGroupStore)
      ensures this.store == store && this.contractStore == contractStore && this.groupStore == groupStore
    {
      this.store := store;
      this.contractStore := contractStore;
      this.groupStore := groupStore;
    }

    /** The three stores work on one database. */
    predicate Wired()
    {
      contractStore.db == store.db && groupStore.pbEntityStore.db == store.db && groupStore.Wired()
    }

    /** AddSubject: stores a subject for the user under a fresh id. */
    method AddSubject(userId: string) returns (r: Result<Subject>)
      requires Wired() && store.db.Valid()
      modifies store.db
      ensures store.db.Valid()
      ensures store.db.issued == old(store.db.issued) + 1
      ensures r.Err? <==> old(store.db.issued) in store.db.faults
      ensures r.Err? ==> store.db.tables == old(store.db.tables)
      ensures r.Ok? ==> r.value.userId == userId && r.value.id != "" && r.value.id !in old(store.db.tables).UsedIds()
      ensures r.Ok? ==> store.db.tables == old(store.db.tables).(subjects := old(store.db.tables).subjects + [Row(r.value.id, userId)])
    {
      var subject, err := store.TxPut(Subject("", userId));
      if err.Some? {
        return Err(err.value);
      }
      r := Ok(subject);
    }

    method GetSubjectByID(subjectId: string) returns (r: Result<Subject>)
      requires Wired()
      modifies store.db`issued
      ensures store.db.issued == old(store.db.issued) + 1
      ensures r == SubjectStore.GetSubjectStmt(store.db.tables.subjects, subjectId, DriverFault(store.db.faults, old(store.db.issued)))
    {
      r := store.TxGet(subjectId);
    }

    /** FindSubjectsByUserID: one query in a transaction, then each row
        converted into a slice of the result's length. */
    method FindSubjectsByUserID(userId: string) returns (r: Result<seq<Subject>>)
      requires Wired()
      modifies store.db`issued
      ensures store.db.issued == old(store.db.issued) + 1
      ensures r == FindByUserStmt(store.db.tables.subjects, userId, DriverFault(store.db.faults, old(store.db.issued)))
    {
      var fault := store.db.Issue();
      if fault.Some? {
        return Err(fault.value);
      }
      var subjects := Where(store.db.tables.subjects, UserIs(userId));
      var pbSubjects := new Subject[|subjects|](_ => Subject("", ""));
      for i := 0 to |subjects|
        modifies pbSubjects
        invariant forall k | 0 <= k < i :: pbSubjects[k] == Subject(subjects[k].id, subjects[k].value)
      {
        pbSubjects[i] := Subject(subjects[i].id, subjects[i].value);
      }
      assert pbSubjects[..] == seq(|subjects|, i requires 0 <= i < |subjects| => SubjectStore.ToPB(subjects[i]));
      r := Ok(pbSubjects[..]);
    }

    /** DeleteSubject, with the cleanup loop's count as written. */
    method DeleteSubject(subjectId: string) returns (err: Option<Error>)
      requires Wired() && store.db.Valid()
      modifies store.db
      ensures store.db.Valid()
      ensures var spec := DeleteSubjectSpec(old(store.db.tables), old(store.db.issued), store.db.faults, subjectId, ZombieCountAsWritten);
              store.db.tables == spec.tables && store.db.issued == spec.issued && err == spec.result
    {
      var db := store.db;
      var snapshot := db.tables;
      ghost var n0 := db.issued;
      var listed := contractStore.ListAllContractsBySubject(subjectId);
      if listed.Err? {
        db.tables := snapshot;
        DeleteSubjectListFails(snapshot, n0, db.faults, subjectId, ZombieCountAsWritten, listed.error);
        return Some(listed.error);
      }
      err := store.TxDelete(subjectId);
      if err.Some? {
        DeleteSubjectDeleteFails(snapshot, n0, db.faults, subjectId, ZombieCountAsWritten, listed.value, db.tables.subjects, err.value);
        db.tables := snapshot;
        return;
      }
      DeleteSubjectUnfold(snapshot, n0, db.faults, subjectId, ZombieCountAsWritten, listed.value, db.tables.subjects);
      CleanupContracts(listed.value);
    }

    /** The third step of DeleteSubject: for each of the subject's contracts,
        delete it and delete its group when the count of contracts left on
        the group is the one the loop tests. */
    method CleanupContracts(contracts: seq<CS.ContractRow>)
      requires Wired() && store.db.Valid()
      modifies store.db
      ensures store.db.Valid()
      ensures (store.db.tables, store.db.issued)
              == Cleanup(old(store.db.tables), old(store.db.issued), store.db.faults, contracts, ZombieCountAsWritten)
    {
      var db := store.db;
      for i := 0 to |contracts|
        invariant db.Valid()
        invariant Cleanup(db.tables, db.issued, db.faults, contracts[i..], ZombieCountAsWritten)
                  == Cleanup(old(db.tables), old(db.issued), db.faults, contracts, ZombieCountAsWritten)
      {
        CleanupOne(contracts[i]);
        assert contracts[i..][1..] == contracts[i + 1..];
      }
      assert contracts[|contracts|..] == [];
    }

    /** One pass of the cleanup loop. */
    method CleanupOne(c: CS.ContractRow)
      requires Wired() && store.db.Valid()
      modifies store.db
      ensures store.db.Valid()
      ensures (store.db.tables, store.db.issued)
              == CleanupStep(old(store.db.tables), old(store.db.issued), store.db.faults, c, ZombieCountAsWritten)
    {
      var db := store.db;
      ghost var t0, n0 := db.tables, db.issued;
      var _ := contractStore.DeleteContractByContractID(c.id);
      assert db.tables == t0.(contracts := DeleteStmt(t0.contracts, c.id, CS.NoRecordForIdMessage(c.id), DriverFault(db.faults, n0)).0);
      ghost var t1 := db.tables;
      var contractsByGroup := contractStore.ListContractsByGroupID(c.value.groupId);
      assert contractsByGroup == CS.ListStmt(t1.contracts, CS.GroupIs(c.value.groupId), DriverFault(db.faults, n0 + 1));
      if contractsByGroup.Ok? && |contractsByGroup.value| == ZombieCountAsWritten {
        var _ := groupStore.Delete(c.value.groupId);
        assert db.tables == t1.(groups := DeleteStmt(t1.groups, c.value.groupId, NotFoundMessage(c.value.groupId), DriverFault(db.faults, n0 + 2)).0);
      }
    }

    /** CreateGroupsForSubjects: in one transaction, bulk-get the listed
        subjects, store a new group with the attributes, and bind every subject
        found to it. Any failure rolls everything back. */
    method CreateGroupsForSubjects(subjectIds: seq<string>, attributes: seq<Attribute>) returns (r: Result<GroupForSubjects>)
      requires Wired() && store.db.Valid()
      modifies store.db
      ensures store.db.Valid()
      ensures r.Err? ==> store.db.tables == old(store.db.tables) && Faulted(store.db.faults, old(store.db.issued), store.db.issued)
      ensures r.Ok? ==>
                var found := Where(old(store.db.tables).subjects, IdIn(subjectIds));
                var g := r.value.group;
                && g.attributes == attributes && g.id != "" && g.id !in old(store.db.tables).UsedIds()
                && |r.value.contracts| == |found|
                && (forall k | 0 <= k < |found| :: r.value.contracts[k].subjectId == found[k].id && r.value.contracts[k].groupId == g.id)
                && store.db.tables == old(store.db.tables).(groups := old(store.db.tables).groups + [Row(g.id, MarshalGroup(g))],
                                                            contracts := old(store.db.tables).contracts + ContractRows(r.value.contracts))
    {
      var db := store.db;
      var snapshot := db.tables;
      ghost var n0 := db.issued;
      var bulk := store.TxBulkGet(subjectIds);
      if bulk.Err? {
        FaultedAt(db.faults, n0, n0, db.issued);
        db.tables := snapshot;
        return Err(bulk.error);
      }
      var subjects := bulk.value;
      SubjectStore.BulkGetFound(snapshot.subjects, subjectIds, DriverFault(db.faults, n0), subjects);
      var ids := seq(|subjects|, k requires 0 <= k < |subjects| => subjects[k].id);
      ghost var n1 := db.issued;
      var group, err := groupStore.Put(Group("", attributes));
      if err.Some? {
        assert DriverFault(db.faults, n1).Some?;
        FaultedAt(db.faults, n0, n1, db.issued);
        db.tables := snapshot;
        return Err(err.value);
      }
      assert group.id !in Ids(snapshot.groups);
      ghost var base := db.tables;
      forall j | 0 <= j < |base.contracts| ensures base.contracts[j].value.groupId != group.id {
        LinkIdsUsed(snapshot, j);
      }
      ghost var n2 := db.issued;
      var contracts := AddContracts(ids, group.id);
      if contracts.Err? {
        FaultedSplit(db.faults, n0, n2, db.issued);
        db.tables := snapshot;
        return Err(contracts.error);
      }
      r := Ok(GroupForSubjects(group, contracts.value));
    }

    /** The third step of CreateGroupsForSubjects: one new contract per
        subject, in order, each binding it to the new group. */
    method AddContracts(subjectIds: seq<string>, groupId: string) returns (r: Result<seq<Contract>>)
      requires Wired() && store.db.Valid()
      requires forall a, b | 0 <= a < b < |subjectIds| :: subjectIds[a] != subjectIds[b]
      requires forall j | 0 <= j < |store.db.tables.contracts| :: store.db.tables.contracts[j].value.groupId != groupId
      modifies store.db
      ensures store.db.Valid()
      ensures r.Err? ==> Faulted(store.db.faults, old(store.db.issued), store.db.issued)
      ensures r.Ok? ==> |r.value| == |subjectIds|
      ensures r.Ok? ==> forall k | 0 <= k < |subjectIds| :: r.value[k].subjectId == subjectIds[k] && r.value[k].groupId == groupId
      ensures r.Ok? ==> store.db.tables == old(store.db.tables).(contracts := old(store.db.tables).contracts + ContractRows(r.value))
    {
      var db := store.db;
      ghost var base := db.tables;
      var contracts: seq<Contract> := [];
      for i := 0 to |subjectIds|
        invariant db.Valid()
        invariant |contracts| == i
        invariant forall k | 0 <= k < i :: contracts[k].subjectId == subjectIds[k] && contracts[k].groupId == groupId
        invariant db.tables == base.(contracts := base.contracts + ContractRows(contracts))
        invariant old(db.issued) <= db.issued
      {
        forall j | 0 <= j < |db.tables.contracts| ensures db.tables.contracts[j].value != Link(subjectIds[i], groupId) {
          if j >= |base.contracts| {
            assert db.tables.contracts[j] == ContractRows(contracts)[j - |base.contracts|];
          }
        }
        ghost var ti, ni := db.tables, db.issued;
        var contract, newId := contractStore.AddNewContract(subjectIds[i], groupId);
        CS.AddNewContractFailsOnlyOnFault(ti, ni, db.faults, subjectIds[i], groupId, newId, Effect(db.tables, db.issued, contract));
        if contract.Err? {
          if ni in db.faults {
            FaultedAt(db.faults, old(db.issued), ni, db.issued);
          } else {
            FaultedAt(db.faults, old(db.issued), ni + 1, db.issued);
          }
          return Err(contract.error);
        }
        assert ContractRows(contracts + [contract.value]) == ContractRows(contracts) + [Row(newId, Link(subjectIds[i], groupId))];
        contracts := contracts + [contract.value];
      }
      r := Ok(contracts);
    }

    /** AddSubjectWithAttributes: in one transaction, store a subject for the
        user, a group with the attributes, and the contract binding them. Any
        failure rolls everything back. */
    method AddSubjectWithAttributes(userId: string, attributes: seq<Attribute>) returns (r: Result<SubjectWithAttributes>)
      requires Wired() && store.db.Valid()
      modifies store.db
      ensures store.db.Valid()
      ensures r.Err? ==> store.db.tables == old(store.db.tables)
      ensures r.Err? <==> Faulted(store.db.faults, old(store.db.issued), store.db.issued)
      ensures r.Ok? ==>
                var (s, g) := (r.value.subject, r.value.group);
                && s.userId == userId && g.attributes == attributes
                && s.id != "" && g.id != "" && r.value.contractId != "" && s.id != g.id
                && s.id !in old(store.db.tables).UsedIds() && g.id !in old(store.db.tables).UsedIds()
                && store.db.tables == old(store.db.tables).(
                     subjects := old(store.db.tables).subjects + [Row(s.id, userId)],
                     groups := old(store.db.tables).groups + [Row(g.id, MarshalGroup(g))],
                     contracts := old(store.db.tables).contracts + [Row(r.value.contractId, Link(s.id, g.id))])
    {
      var db := store.db;
      var snapshot := db.tables;
      ghost var n0 := db.issued;
      var subject, group, err := StoreSubjectAndGroup(userId, attributes);
      if err.Some? {
        db.tables := snapshot;
        return Err(err.value);
      }
      ghost var t2, n2 := db.tables, db.issued;
      var contract, newId := contractStore.AddNewContract(subject.id, group.id);
      CS.AddNewContractFailsOnlyOnFault(t2, n2, db.faults, subject.id, group.id, newId, Effect(db.tables, db.issued, contract));
      if contract.Err? {
        if n2 in db.faults {
          FaultedAt(db.faults, n0, n2, db.issued);
        } else {
          FaultedAt(db.faults, n0, n2 + 1, db.issued);
        }
        db.tables := snapshot;
        return Err(contract.error);
      }
      NotFaultedTwice(db.faults, n0, n2);
      assert db.tables == t2.(contracts := t2.contracts + [Row(contract.value.id, Link(subject.id, group.id))]);
      r := Ok(SubjectWithAttributes(subject, group, contract.value.id));
    }

    /** The first two statements of AddSubjectWithAttributes: store a subject
        for the user and a group with the attributes, each under a fresh id. */
    method StoreSubjectAndGroup(userId: string, attributes: seq<Attribute>) returns (subject: Subject, group: Group, err: Option<Error>)
      requires Wired() && store.db.Valid()
      modifies store.db
      ensures store.db.Valid()
      ensures err.Some? ==> Faulted(store.db.faults, old(store.db.issued), store.db.issued)
      ensures err.None? ==>
                && store.db.issued == old(store.db.issued) + 2
                && old(store.db.issued) !in store.db.faults && old(store.db.issued) + 1 !in store.db.faults
                && subject.userId == userId && group.attributes == attributes
                && subject.id != "" && group.id != "" && subject.id != group.id
                && subject.id !in old(store.db.tables).UsedIds() && group.id !in old(store.db.tables).UsedIds()
                && store.db.tables == old(store.db.tables).(
                     subjects := old(store.db.tables).subjects + [Row(subject.id, userId)],
                     groups := old(store.db.tables).groups + [Row(group.id, MarshalGroup(group))])
                && forall j | 0 <= j < |store.db.tables.contracts| :: store.db.tables.contracts[j].value != Link(subject.id, group.id)
    {
      var db := store.db;
      ghost var t0, n0 := db.tables, db.issued;
      group := Group("", attributes);
      subject, err := store.TxPut(Subject("", userId));
      if err.Some? {
        FaultedAt(db.faults, n0, n0, db.issued);
        return;
      }
      ghost var t1, n1 := db.tables, db.issued;
      group, err := groupStore.Put(Group("", attributes));
      if err.Some? {
        assert DriverFault(db.faults, n1).Some?;
        FaultedAt(db.faults, n0, n1, db.issued);
        return;
      }
      FreshSubjectAndGroup(t0, t1, db.tables, subject, group);
    }
  }
}
