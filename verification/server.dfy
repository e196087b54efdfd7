/** The Authorize call of the gRPC server: the subject's groups and the policy
    are read, the groups merged, and the policy checked on a new engine. */
module Server {
  import opened Wrappers
  import opened Table
  import opened Proto
  import opened Db
  import opened PolicyEngine
  import CS = ContractStore
  import PolicyStore
  import Groups
  import EntityStore

  const GroupsFailurePrefix := "failed to get groups by subject due to "
  const PolicyFailurePrefix := "failed to get policy due to "

  /** Authorize on a database state, with the engine's processor list as a
      parameter: a failed read is reported with its prefix and no verdict;
      otherwise the engine's outcome is the answer. */
  function AuthorizeSpec(procs: seq<Processor>, t: Tables, n: nat, faults: map<nat, string>,
                         subjectId: string, policyId: string): (r: Result<Outcome>)
    ensures n in faults ==> r == Err(Error(GroupsFailurePrefix + faults[n]))
    ensures n !in faults && CS.ListGroupsStmt(t, subjectId, None).Ok? && n + 1 in faults ==>
              r == Err(Error(PolicyFailurePrefix + faults[n + 1]))
    ensures n !in faults && CS.ListGroupsStmt(t, subjectId, None).Ok? && n + 1 !in faults && policyId !in Ids(t.policies) ==>
              r == Err(Error(PolicyFailurePrefix + EntityStore.NoRecordFoundMessage(policyId)))
    ensures r.Ok? ==> Final(r.value)
  {
    match CS.ListGroupsStmt(t, subjectId, DriverFault(faults, n))
    case Err(e) => Err(Error(GroupsFailurePrefix + e.message))
    case Ok(groups) =>
      match PolicyStore.GetPolicyStmt(t.policies, policyId, DriverFault(faults, n + 1))
      case Err(e) => Err(Error(PolicyFailurePrefix + e.message))
      case Ok(policy) => Ok(CheckPolicy(procs, policy, Proto.Group("", Groups.Flatten(groups))))
  }

  /** As written, Authorize uses an engine without processors, so it never
      reaches a verdict: every answer is an error. */
  lemma AuthorizeNeverDecides(t: Tables, n: nat, faults: map<nat, string>, subjectId: string, policyId: string)
    ensures var r := AuthorizeSpec([], t, n, faults, subjectId, policyId);
            r.Err? || (r.value.verdict == UNKNOWN && r.value.err.Some?)
  {
  }

  /** With the processors installed, Authorize decides every stored policy
      whose condition is complete (Or nodes only with the corrected Or
      processor), as long as both reads succeed. */
  lemma AuthorizeDecides(procs: seq<Processor>, t: Tables, n: nat, faults: map<nat, string>,
                         subjectId: string, policyId: string)
    requires Installed(procs)
    requires n !in faults && n + 1 !in faults
    requires CS.ListGroupsStmt(t, subjectId, None).Ok?
    requires PolicyStore.GetPolicyStmt(t.policies, policyId, None).Ok?
    requires var p := PolicyStore.GetPolicyStmt(t.policies, policyId, None).value;
             p.condition.Some? && Complete(p.condition.value, procs == IntendedProcessors)
    ensures var r := AuthorizeSpec(procs, t, n, faults, subjectId, policyId);
            r.Ok? && r.value.err.None? && r.value.verdict != UNKNOWN
  {
    var p := PolicyStore.GetPolicyStmt(t.policies, policyId, None).value;
    var groups := CS.ListGroupsStmt(t, subjectId, None).value;
    InstalledEngineDecides(procs, p.condition.value, Groups.FromPB(Proto.Group("", Groups.Flatten(groups))).attributes);
  }

  /** server: the contract and policy handlers, which delegate to their
      stores, over one database. */
  class Server {
    const contractStore: CS.ContractStore
    const policyStore: PolicyStore.SQLPolicyStore

    constructor (contractStore: CS.ContractStore, policyStore: PolicyStore.SQLPolicyStore)
      ensures this.contractStore == contractStore && this.policyStore == policyStore
    {
      this.contractStore := contractStore;
      this.policyStore := policyStore;
    }

    predicate Wired()
    {
      contractStore.db == policyStore.pbEntityStore.db && policyStore.Wired()
    }

    method Authorize(subjectId: string, policyId: string) returns (r: Result<Outcome>)
      requires Wired()
      modifies contractStore.db`issued
      ensures r == AuthorizeSpec([], contractStore.db.tables, old(contractStore.db.issued), contractStore.db.faults,
                                 subjectId, policyId)
      ensures contractStore.db.issued == old(contractStore.db.issued) + 
                (if CS.ListGroupsStmt(contractStore.db.tables, subjectId, DriverFault(contractStore.db.faults, old(contractStore.db.issued))).Err?
                 then 1 else 2)
    {
      var engine := NewEngine();
      var groups := contractStore.ListGroupsBySubjectID(subjectId);
      if groups.Err? {
        return Err(Error(GroupsFailurePrefix + groups.error.message));
      }
      var policy := policyStore.Get(policyId);
      if policy.Err? {
        return Err(Error(PolicyFailurePrefix + policy.error.message));
      }
      var merged := Groups.MergeGroups(groups.value);
      r := Ok(engine.Check(policy.value, merged));
    }
  }
}
