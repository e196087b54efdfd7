/** The protocol-buffer messages the core exchanges, and their stored form. */
module Proto {
  import opened Wrappers

  datatype Attribute = Attribute(key: string, value: string)

  /** pb.Group: attributes are an ordered list, duplicate keys allowed. */
  datatype Group = Group(id: string, attributes: seq<Attribute>)

  datatype Subject = Subject(id: string, userId: string)

  datatype Contract = Contract(id: string, subjectId: string, groupId: string)

  datatype Verdict = UNKNOWN | PERMITTED | DENIED

  /** pb.Operation; an enum value outside the six named ones is `Unrecognized`. */
  datatype Operation = EQ | CONTAINS | GT | LT | GTE | LTE | Unrecognized(code: int)

  /** pb.PolicyCondition: exactly one variant per node, or none at all (`Unset`).
      A Negation whose inner condition is nil carries `None`. */
  datatype Condition =
    | HasAttribute(attributeKeys: seq<string>)
    | EvaluateAttribute(attributeKey: string, op: Operation, value: string)
    | Negation(inner: Option<Condition>)
    | And(conditions: seq<Condition>)
    | Or(conditions: seq<Condition>)
    | Unset

  datatype Policy = Policy(id: string, condition: Option<Condition>)

  /** A serialized message as stored in a `payload` column. Serialization is
      modelled as an injective tag, not as bytes. */
  datatype Payload = GroupPayload(group: Group) | PolicyPayload(policy: Policy)

  const DecodeErrorMessage := "proto: cannot parse invalid wire-format data"

  function MarshalGroup(g: Group): Payload { GroupPayload(g) }

  function UnmarshalGroup(p: Payload): (r: Result<Group>)
    ensures r.Ok? <==> p.GroupPayload?
  {
    match p
    case GroupPayload(g) => Ok(g)
    case PolicyPayload(_) => Err(Error(DecodeErrorMessage))
  }

  function MarshalPolicy(p: Policy): Payload { PolicyPayload(p) }

  function UnmarshalPolicy(p: Payload): (r: Result<Policy>)
    ensures r.Ok? <==> p.PolicyPayload?
  {
    match p
    case PolicyPayload(q) => Ok(q)
    case GroupPayload(_) => Err(Error(DecodeErrorMessage))
  }

  /** Marshal and Unmarshal are inverses (the one assumption made about protobuf). */
  lemma MarshalRoundTrip(g: Group, p: Policy)
    ensures UnmarshalGroup(MarshalGroup(g)) == Ok(g)
    ensures UnmarshalPolicy(MarshalPolicy(p)) == Ok(p)
  {
  }
}
