/** The policy engine: a recursive interpreter of a condition tree against a
    key-to-value attribute map. The engine owns an ordered list of condition
    processors; evaluating a node asks each processor in turn and stops at the
    first one that decides or fails. */
module PolicyEngine {
  import opened Wrappers
  import opened Proto
  import Groups

  /** The pair (pb.Verdict, error) every processor and the evaluator return. */
  datatype Outcome = Outcome(verdict: Verdict, err: Option<Error>)

  /** What a processor answers for a node that is not its kind. */
  const NotApplicable := Outcome(UNKNOWN, None)

  /** An evaluation result: an error comes with UNKNOWN, and without an
      error the verdict is PERMITTED or DENIED. */
  predicate Final(o: Outcome)
  {
    if o.err.Some? then o.verdict == UNKNOWN else o.verdict != UNKNOWN
  }

  /** The processors `init` installs, plus the corrected Or processor that
      reads the Or variant and falls back to DENIED. */
  datatype Processor =
    | HasAttributeProcessor
    | EvaluateOPProcessor
    | NegationProcessor
    | AndProcessor
    | OrProcessor
    | IntendedOrProcessor

  /** The list `init` builds. */
  const InitProcessors: seq<Processor> :=
    [HasAttributeProcessor, EvaluateOPProcessor, NegationProcessor, AndProcessor, OrProcessor]

  /** The same list with the Or processor corrected. */
  const IntendedProcessors: seq<Processor> :=
    [HasAttributeProcessor, EvaluateOPProcessor, NegationProcessor, AndProcessor, IntendedOrProcessor]

  const NoProcessorMessage := "no condition processor is found for policy condition"
  const NilInnerMessage := "inner condition is null for negation"
  const EmptyConditionMessage := "empty condition for policy "

  const NoProcessor := Outcome(UNKNOWN, Some(Error(NoProcessorMessage)))

  /** `strings.Compare`: lexicographic order on code points, which is the
      byte-wise order of the strings' UTF-8 encodings. */
  function Compare(a: string, b: string): (r: int)
    ensures -1 <= r <= 1
    ensures r == 0 <==> a == b
  {
    if a == [] && b == [] then 0
    else if a == [] then -1
    else if b == [] then 1
    else if a[0] < b[0] then -1
    else if a[0] > b[0] then 1
    else
      assert a == [a[0]] + a[1..] && b == [b[0]] + b[1..];
      Compare(a[1..], b[1..])
  }

  lemma {:induction false} CompareAntisymmetric(a: string, b: string)
    ensures Compare(a, b) == -Compare(b, a)
  {
    if a != [] && b != [] && a[0] == b[0] {
      CompareAntisymmetric(a[1..], b[1..]);
    }
  }

  /** `sub` occurs in `s` starting at offset i. */
  predicate OccursAt(s: string, sub: string, i: int)
  {
    0 <= i <= |s| - |sub| && s[i..i + |sub|] == sub
  }

  /** `strings.Contains`: `sub` occurs in `s` at some offset. */
  function Contains(s: string, sub: string): (r: bool)
    ensures r <==> exists i :: OccursAt(s, sub, i)
  {
    if sub <= s then
      assert OccursAt(s, sub, 0);
      true
    else if s == [] then false
    else
      var r := Contains(s[1..], sub);
      if r then
        var i :| OccursAt(s[1..], sub, i);
        assert OccursAt(s, sub, i + 1);
        r
      else
        assert forall i | OccursAt(s, sub, i) :: i >= 1 && OccursAt(s[1..], sub, i - 1);
        r
  }

  /** evalOp: the comparison an EvaluateAttribute node asks for. */
  function EvalOp(op: Operation, attribute: string, value: string): bool
  {
    match op
    case EQ => attribute == value
    case CONTAINS => Contains(attribute, value)
    case GT => Compare(attribute, value) > 0
    case LT => Compare(attribute, value) < 0
    case GTE => Compare(attribute, value) >= 0
    case LTE => Compare(attribute, value) <= 0
    case Unrecognized(_) => false
  }

  /** EQ is equality, CONTAINS a substring test, GTE and LTE the non-strict
      forms of GT and LT, GT the mirror of LT, and an unknown op is false. */
  lemma EvalOpMeaning(attribute: string, value: string, code: int)
    ensures EvalOp(EQ, attribute, value) <==> attribute == value
    ensures EvalOp(CONTAINS, attribute, value)
            <==> exists i :: OccursAt(attribute, value, i)
    ensures EvalOp(GTE, attribute, value) <==> EvalOp(GT, attribute, value) || EvalOp(EQ, attribute, value)
    ensures EvalOp(LTE, attribute, value) <==> EvalOp(LT, attribute, value) || EvalOp(EQ, attribute, value)
    ensures EvalOp(GT, attribute, value) <==> EvalOp(LT, value, attribute)
    ensures !(EvalOp(GT, attribute, value) && EvalOp(LT, attribute, value))
    ensures !EvalOp(Unrecognized(code), attribute, value)
  {
    CompareAntisymmetric(attribute, value);
  }

  /** HasAttributeProcessor's loop: every listed key is in the map. */
  function AllPresent(keys: seq<string>, attributes: map<string, string>): (r: bool)
    ensures r <==> forall k | k in keys :: k in attributes
  {
    if keys == [] then true
    else
      assert forall k | k in keys :: k == keys[0] || k in keys[1..];
      keys[0] in attributes && AllPresent(keys[1..], attributes)
  }

  function ProcessHasAttribute(cond: Condition, attributes: map<string, string>): Outcome
  {
    if !cond.HasAttribute? then NotApplicable
    else Outcome(if AllPresent(cond.attributeKeys, attributes) then PERMITTED else DENIED, None)
  }

  function ProcessEvaluateOP(cond: Condition, attributes: map<string, string>): Outcome
  {
    if !cond.EvaluateAttribute? then NotApplicable
    else if cond.attributeKey !in attributes then Outcome(DENIED, None)
    else if EvalOp(cond.op, attributes[cond.attributeKey], cond.value) then Outcome(PERMITTED, None)
    else Outcome(DENIED, None)
  }

  /** The switch in NegationProcessor: only a clear verdict is swapped. */
  function Negate(v: Verdict): Verdict
  {
    match v
    case PERMITTED => DENIED
    case DENIED => PERMITTED
    case UNKNOWN => UNKNOWN
  }

  /** evaluateCondition: the first processor, in list order, that decides or
      fails settles the node; when none does, evaluation fails. */
  function EvaluateCondition(procs: seq<Processor>, cond: Condition, attributes: map<string, string>): (r: Outcome)
    ensures Final(r)
    ensures procs == [] ==> r == NoProcessor
    decreases cond, 4, 0
  {
    EvaluateFrom(procs, 0, cond, attributes)
  }

  function EvaluateFrom(procs: seq<Processor>, i: nat, cond: Condition, attributes: map<string, string>): (r: Outcome)
    requires i <= |procs|
    ensures Final(r)
    decreases cond, 3, |procs| - i
  {
    if i == |procs| then NoProcessor
    else
      var o := Run(procs, procs[i], cond, attributes);
      if o.err.Some? then Outcome(UNKNOWN, o.err)
      else if o.verdict == DENIED || o.verdict == PERMITTED then o
      else EvaluateFrom(procs, i + 1, cond, attributes)
  }

  /** One processor applied to one node. */
  function Run(procs: seq<Processor>, p: Processor, cond: Condition, attributes: map<string, string>): (r: Outcome)
    ensures r == NotApplicable || Final(r)
    decreases cond, 2, 0
  {
    match p
    case HasAttributeProcessor => ProcessHasAttribute(cond, attributes)
    case EvaluateOPProcessor => ProcessEvaluateOP(cond, attributes)
    case NegationProcessor => ProcessNegation(procs, cond, attributes)
    case AndProcessor => ProcessAnd(procs, cond, attributes)
    case OrProcessor => ProcessOr(procs, cond, attributes)
    case IntendedOrProcessor => ProcessIntendedOr(procs, cond, attributes)
  }

  function ProcessNegation(procs: seq<Processor>, cond: Condition, attributes: map<string, string>): Outcome
    decreases cond, 1, 0
  {
    if !cond.Negation? then NotApplicable
    else match cond.inner
      case None => Outcome(UNKNOWN, Some(Error(NilInnerMessage)))
      case Some(inner) =>
        var o := EvaluateCondition(procs, inner, attributes);
        Outcome(Negate(o.verdict), o.err)
  }

  function ProcessAnd(procs: seq<Processor>, cond: Condition, attributes: map<string, string>): Outcome
    decreases cond, 1, 0
  {
    if !cond.And? then NotApplicable
    else ShortCircuit(procs, cond, 0, DENIED, PERMITTED, attributes)
  }

  /** OrProcessor as written: it reads the And variant, stops at the first
      PERMITTED child and otherwise answers PERMITTED. */
  function ProcessOr(procs: seq<Processor>, cond: Condition, attributes: map<string, string>): Outcome
    decreases cond, 1, 0
  {
    if !cond.And? then NotApplicable
    else ShortCircuit(procs, cond, 0, PERMITTED, PERMITTED, attributes)
  }

  /** The Or processor as evidently intended: reads the Or variant, stops at
      the first PERMITTED child and otherwise answers DENIED. */
  function ProcessIntendedOr(procs: seq<Processor>, cond: Condition, attributes: map<string, string>): Outcome
    decreases cond, 1, 0
  {
    if !cond.Or? then NotApplicable
    else ShortCircuit(procs, cond, 0, PERMITTED, DENIED, attributes)
  }

  /** The loop shared by the And and Or processors: evaluate the children
      from index j in order, return the first child result that fails or
      equals `stop`, and `fallback` when no child does. */
  function ShortCircuit(procs: seq<Processor>, cond: Condition, j: nat, stop: Verdict, fallback: Verdict,
                        attributes: map<string, string>): (r: Outcome)
    requires cond.And? || cond.Or?
    requires j <= |cond.conditions|
    ensures r == Outcome(fallback, None) || r.err.Some? || r.verdict == stop
    ensures fallback != UNKNOWN ==> Final(r)
    decreases cond, 0, |cond.conditions| - j
  {
    if j == |cond.conditions| then Outcome(fallback, None)
    else
      var o := EvaluateCondition(procs, cond.conditions[j], attributes);
      if o.err.Some? || o.verdict == stop then o
      else ShortCircuit(procs, cond, j + 1, stop, fallback, attributes)
  }

  /** The two processor lists of this model: the one `init` builds and the corrected one. */
  predicate Installed(procs: seq<Processor>)
  {
    procs == InitProcessors || procs == IntendedProcessors
  }

  lemma {:induction false} FirstDecisiveFrom(procs: seq<Processor>, i: nat, k: nat, cond: Condition,
                                             attributes: map<string, string>)
    requires i <= k < |procs|
    requires forall j | i <= j < k :: Run(procs, procs[j], cond, attributes) == NotApplicable
    requires Run(procs, procs[k], cond, attributes) != NotApplicable
    ensures EvaluateFrom(procs, i, cond, attributes) == Run(procs, procs[k], cond, attributes)
    decreases k - i
  {
    if i < k {
      FirstDecisiveFrom(procs, i + 1, k, cond, attributes);
    }
  }

  /** The first processor that does not pass the node on settles it: its
      answer is the node's result, and later processors are not consulted. */
  lemma FirstDecisiveProcessor(procs: seq<Processor>, k: nat, cond: Condition, attributes: map<string, string>)
    requires k < |procs|
    requires forall j | 0 <= j < k :: Run(procs, procs[j], cond, attributes) == NotApplicable
    requires Run(procs, procs[k], cond, attributes) != NotApplicable
    ensures EvaluateCondition(procs, cond, attributes) == Run(procs, procs[k], cond, attributes)
  {
    FirstDecisiveFrom(procs, 0, k, cond, attributes);
  }

  lemma {:induction false} NoDecisiveFrom(procs: seq<Processor>, i: nat, cond: Condition,
                                          attributes: map<string, string>)
    requires i <= |procs|
    requires forall j | i <= j < |procs| :: Run(procs, procs[j], cond, attributes) == NotApplicable
    ensures EvaluateFrom(procs, i, cond, attributes) == NoProcessor
    decreases |procs| - i
  {
    if i < |procs| {
      NoDecisiveFrom(procs, i + 1, cond, attributes);
    }
  }

  /** A node that every processor passes on is an evaluation failure, never
      a silent UNKNOWN. */
  lemma NoDecisiveProcessor(procs: seq<Processor>, cond: Condition, attributes: map<string, string>)
    requires forall j | 0 <= j < |procs| :: Run(procs, procs[j], cond, attributes) == NotApplicable
    ensures EvaluateCondition(procs, cond, attributes) == NoProcessor
  {
    NoDecisiveFrom(procs, 0, cond, attributes);
  }

  /** Which processor of an installed list settles each kind of node. With
      the list `init` builds, no processor claims an Or node or an unset
      node; with the corrected list only the unset node is unclaimed. */
  lemma Dispatch(procs: seq<Processor>, cond: Condition, attributes: map<string, string>)
    requires Installed(procs)
    ensures EvaluateCondition(procs, cond, attributes) ==
      match cond
      case HasAttribute(_) => ProcessHasAttribute(cond, attributes)
      case EvaluateAttribute(_, _, _) => ProcessEvaluateOP(cond, attributes)
      case Negation(_) => ProcessNegation(procs, cond, attributes)
      case And(_) => ProcessAnd(procs, cond, attributes)
      case Or(_) => if procs == InitProcessors then NoProcessor else ProcessIntendedOr(procs, cond, attributes)
      case Unset => NoProcessor
  {
    match cond
    case HasAttribute(_) =>
      FirstDecisiveProcessor(procs, 0, cond, attributes);
    case EvaluateAttribute(_, _, _) =>
      FirstDecisiveProcessor(procs, 1, cond, attributes);
    case Negation(_) =>
      FirstDecisiveProcessor(procs, 2, cond, attributes);
    case And(_) =>
      FirstDecisiveProcessor(procs, 3, cond, attributes);
    case Or(_) =>
      if procs == InitProcessors {
        NoDecisiveProcessor(procs, cond, attributes);
      } else {
        FirstDecisiveProcessor(procs, 4, cond, attributes);
      }
    case Unset =>
      NoDecisiveProcessor(procs, cond, attributes);
  }

  /** HasAttribute is PERMITTED exactly when every listed key is present. */
  lemma HasAttributeVerdict(procs: seq<Processor>, keys: seq<string>, attributes: map<string, string>)
    requires Installed(procs)
    ensures EvaluateCondition(procs, HasAttribute(keys), attributes) ==
            Outcome(if forall k | k in keys :: k in attributes then PERMITTED else DENIED, None)
  {
    Dispatch(procs, HasAttribute(keys), attributes);
  }

  /** EvaluateAttribute is PERMITTED exactly when the key is present and the
      comparison holds; a missing key is DENIED whatever the operation. */
  lemma EvaluateAttributeVerdict(procs: seq<Processor>, key: string, op: Operation, value: string,
                                 attributes: map<string, string>)
    requires Installed(procs)
    ensures EvaluateCondition(procs, EvaluateAttribute(key, op, value), attributes) ==
            Outcome(if key in attributes && EvalOp(op, attributes[key], value) then PERMITTED else DENIED, None)
  {
    Dispatch(procs, EvaluateAttribute(key, op, value), attributes);
  }

  /** Negation swaps a clear verdict, passes an error through, and fails on a
      missing inner condition. */
  lemma NegationVerdict(procs: seq<Processor>, inner: Option<Condition>, attributes: map<string, string>)
    requires Installed(procs)
    ensures inner.None? ==>
            EvaluateCondition(procs, Negation(inner), attributes) == Outcome(UNKNOWN, Some(Error(NilInnerMessage)))
    ensures inner.Some? ==>
            var o := EvaluateCondition(procs, inner.value, attributes);
            EvaluateCondition(procs, Negation(inner), attributes) == Outcome(Negate(o.verdict), o.err)
  {
    Dispatch(procs, Negation(inner), attributes);
  }

  /** Negating twice gives back the original result, errors included. */
  lemma DoubleNegation(procs: seq<Processor>, cond: Condition, attributes: map<string, string>)
    requires Installed(procs)
    ensures EvaluateCondition(procs, Negation(Some(Negation(Some(cond)))), attributes)
            == EvaluateCondition(procs, cond, attributes)
  {
    NegationVerdict(procs, Some(cond), attributes);
    NegationVerdict(procs, Some(Negation(Some(cond))), attributes);
  }

  /** The child loop returns the first child that fails or yields `stop`;
      the children after it are not evaluated. */
  lemma {:induction false} ShortCircuitStopsAt(procs: seq<Processor>, cond: Condition, j: nat, k: nat,
                                               stop: Verdict, fallback: Verdict, attributes: map<string, string>)
    requires cond.And? || cond.Or?
    requires j <= k < |cond.conditions|
    requires forall m | j <= m < k ::
               EvaluateCondition(procs, cond.conditions[m], attributes).err.None? &&
               EvaluateCondition(procs, cond.conditions[m], attributes).verdict != stop
    requires EvaluateCondition(procs, cond.conditions[k], attributes).err.Some? ||
             EvaluateCondition(procs, cond.conditions[k], attributes).verdict == stop
    ensures ShortCircuit(procs, cond, j, stop, fallback, attributes) == EvaluateCondition(procs, cond.conditions[k], attributes)
    decreases k - j
  {
    if j < k {
      ShortCircuitStopsAt(procs, cond, j + 1, k, stop, fallback, attributes);
    }
  }

  /** With the two clear verdicts as `stop` and `fallback`, the loop yields
      `fallback` exactly when every remaining child does. */
  lemma {:induction false} ShortCircuitFallback(procs: seq<Processor>, cond: Condition, j: nat,
                                                stop: Verdict, fallback: Verdict, attributes: map<string, string>)
    requires cond.And? || cond.Or?
    requires j <= |cond.conditions|
    requires stop != UNKNOWN && fallback != UNKNOWN && stop != fallback
    ensures ShortCircuit(procs, cond, j, stop, fallback, attributes).verdict == fallback <==>
            forall m | j <= m < |cond.conditions| :: EvaluateCondition(procs, cond.conditions[m], attributes).verdict == fallback
    decreases |cond.conditions| - j
  {
    if j < |cond.conditions| {
      ShortCircuitFallback(procs, cond, j + 1, stop, fallback, attributes);
    }
  }

  /** And is PERMITTED exactly when every child is (so an empty And is
      PERMITTED). */
  lemma AndVerdict(procs: seq<Processor>, children: seq<Condition>, attributes: map<string, string>)
    requires Installed(procs)
    ensures EvaluateCondition(procs, And(children), attributes).verdict == PERMITTED <==>
            forall m | 0 <= m < |children| :: EvaluateCondition(procs, children[m], attributes).verdict == PERMITTED
  {
    Dispatch(procs, And(children), attributes);
    ShortCircuitFallback(procs, And(children), 0, DENIED, PERMITTED, attributes);
  }

  /** And stops at its first child that is not PERMITTED and returns that
      child's result, DENIED or error, whatever the later children are. */
  lemma AndStopsAtFirst(procs: seq<Processor>, children: seq<Condition>, k: nat, attributes: map<string, string>)
    requires Installed(procs)
    requires k < |children|
    requires forall m | 0 <= m < k :: EvaluateCondition(procs, children[m], attributes).verdict == PERMITTED
    requires EvaluateCondition(procs, children[k], attributes).verdict != PERMITTED
    ensures EvaluateCondition(procs, And(children), attributes) == EvaluateCondition(procs, children[k], attributes)
  {
    Dispatch(procs, And(children), attributes);
    ShortCircuitStopsAt(procs, And(children), 0, k, DENIED, PERMITTED, attributes);
  }

  /** Under the list `init` builds, an Or node is never decided: it fails
      with the no-processor error whatever its children. */
  lemma OrAsWrittenFails(children: seq<Condition>, attributes: map<string, string>)
    ensures EvaluateCondition(InitProcessors, Or(children), attributes) == NoProcessor
  {
    Dispatch(InitProcessors, Or(children), attributes);
  }

  /** OrProcessor as written never answers DENIED: it claims And nodes and
      falls back to PERMITTED. */
  lemma OrProcessorNeverDenies(procs: seq<Processor>, cond: Condition, attributes: map<string, string>)
    ensures ProcessOr(procs, cond, attributes).verdict != DENIED
    ensures cond.Or? ==> ProcessOr(procs, cond, attributes) == NotApplicable
  {
  }

  /** The corrected Or is DENIED exactly when every child is DENIED (so an
      empty Or is DENIED). */
  lemma IntendedOrVerdict(children: seq<Condition>, attributes: map<string, string>)
    ensures EvaluateCondition(IntendedProcessors, Or(children), attributes).verdict == DENIED <==>
            forall m | 0 <= m < |children| :: EvaluateCondition(IntendedProcessors, children[m], attributes).verdict == DENIED
  {
    Dispatch(IntendedProcessors, Or(children), attributes);
    ShortCircuitFallback(IntendedProcessors, Or(children), 0, PERMITTED, DENIED, attributes);
  }

  /** The corrected Or stops at its first child that is not DENIED and
      returns that child's result, PERMITTED or error. */
  lemma IntendedOrStopsAtFirst(children: seq<Condition>, k: nat, attributes: map<string, string>)
    requires k < |children|
    requires forall m | 0 <= m < k :: EvaluateCondition(IntendedProcessors, children[m], attributes).verdict == DENIED
    requires EvaluateCondition(IntendedProcessors, children[k], attributes).verdict != DENIED
    ensures EvaluateCondition(IntendedProcessors, Or(children), attributes) ==
            EvaluateCondition(IntendedProcessors, children[k], attributes)
  {
    Dispatch(IntendedProcessors, Or(children), attributes);
    ShortCircuitStopsAt(IntendedProcessors, Or(children), 0, k, PERMITTED, DENIED, attributes);
  }

  /** A condition tree with every node set and every negation holding an
      inner condition; `orAllowed` says whether Or nodes may occur. */
  predicate Complete(cond: Condition, orAllowed: bool)
  {
    match cond
    case HasAttribute(_) => true
    case EvaluateAttribute(_, _, _) => true
    case Negation(inner) => inner.Some? && Complete(inner.value, orAllowed)
    case And(children) => forall m | 0 <= m < |children| :: Complete(children[m], orAllowed)
    case Or(children) => orAllowed && forall m | 0 <= m < |children| :: Complete(children[m], orAllowed)
    case Unset => false
  }

  /** Condition trees without an Or node anywhere. */
  predicate OrFree(cond: Condition)
  {
    match cond
    case HasAttribute(_) => true
    case EvaluateAttribute(_, _, _) => true
    case Negation(inner) => inner.None? || OrFree(inner.value)
    case And(children) => forall m | 0 <= m < |children| :: OrFree(children[m])
    case Or(_) => false
    case Unset => true
  }

  lemma {:induction false} ShortCircuitNoError(procs: seq<Processor>, cond: Condition, j: nat,
                                               stop: Verdict, fallback: Verdict, attributes: map<string, string>)
    requires cond.And? || cond.Or?
    requires j <= |cond.conditions|
    requires forall m | j <= m < |cond.conditions| :: EvaluateCondition(procs, cond.conditions[m], attributes).err.None?
    ensures ShortCircuit(procs, cond, j, stop, fallback, attributes).err.None?
    decreases |cond.conditions| - j
  {
    if j < |cond.conditions| {
      ShortCircuitNoError(procs, cond, j + 1, stop, fallback, attributes);
    }
  }

  /** An installed engine decides every complete condition: the result is
      PERMITTED or DENIED, never an error. The list `init` builds does so
      only for trees without Or nodes; the corrected list for all of them. */
  lemma {:induction false} InstalledEngineDecides(procs: seq<Processor>, cond: Condition, attributes: map<string, string>)
    requires Installed(procs)
    requires Complete(cond, procs == IntendedProcessors)
    ensures EvaluateCondition(procs, cond, attributes).err.None?
    ensures EvaluateCondition(procs, cond, attributes).verdict != UNKNOWN
    decreases cond
  {
    Dispatch(procs, cond, attributes);
    match cond
    case HasAttribute(_) =>
    case EvaluateAttribute(_, _, _) =>
    case Negation(inner) =>
      InstalledEngineDecides(procs, inner.value, attributes);
    case And(children) =>
      forall m | 0 <= m < |children|
        ensures EvaluateCondition(procs, children[m], attributes).err.None?
      {
        InstalledEngineDecides(procs, children[m], attributes);
      }
      ShortCircuitNoError(procs, cond, 0, DENIED, PERMITTED, attributes);
    case Or(children) =>
      forall m | 0 <= m < |children|
        ensures EvaluateCondition(procs, children[m], attributes).err.None?
      {
        InstalledEngineDecides(procs, children[m], attributes);
      }
      ShortCircuitNoError(procs, cond, 0, PERMITTED, DENIED, attributes);
  }

  lemma {:induction false} ShortCircuitAgrees(cond: Condition, j: nat, attributes: map<string, string>)
    requires cond.And?
    requires j <= |cond.conditions|
    requires forall m | j <= m < |cond.conditions| ::
               EvaluateCondition(InitProcessors, cond.conditions[m], attributes) ==
               EvaluateCondition(IntendedProcessors, cond.conditions[m], attributes)
    ensures ShortCircuit(InitProcessors, cond, j, DENIED, PERMITTED, attributes) ==
            ShortCircuit(IntendedProcessors, cond, j, DENIED, PERMITTED, attributes)
    decreases |cond.conditions| - j
  {
    if j < |cond.conditions| {
      ShortCircuitAgrees(cond, j + 1, attributes);
    }
  }

  /** The correction changes nothing for trees without Or nodes. */
  lemma {:induction false} CorrectionOnlyAffectsOr(cond: Condition, attributes: map<string, string>)
    requires OrFree(cond)
    ensures EvaluateCondition(InitProcessors, cond, attributes) == EvaluateCondition(IntendedProcessors, cond, attributes)
    decreases cond
  {
    Dispatch(InitProcessors, cond, attributes);
    Dispatch(IntendedProcessors, cond, attributes);
    match cond
    case HasAttribute(_) =>
    case EvaluateAttribute(_, _, _) =>
    case Negation(inner) =>
      if inner.Some? {
        CorrectionOnlyAffectsOr(inner.value, attributes);
      }
    case And(children) =>
      forall m | 0 <= m < |children|
        ensures EvaluateCondition(InitProcessors, children[m], attributes) ==
                EvaluateCondition(IntendedProcessors, children[m], attributes)
      {
        CorrectionOnlyAffectsOr(children[m], attributes);
      }
      ShortCircuitAgrees(cond, 0, attributes);
    case Unset =>
  }

  /** Worked cases: the group {role: admin, level: 5}. */
  lemma Examples(procs: seq<Processor>)
    requires Installed(procs)
    ensures var attributes := map["role" := "admin", "level" := "5"];
      && EvaluateCondition(procs, HasAttribute(["role", "region"]), attributes) == Outcome(DENIED, None)
      && EvaluateCondition(procs, HasAttribute(["role"]), attributes) == Outcome(PERMITTED, None)
      && EvaluateCondition(procs, EvaluateAttribute("level", GTE, "3"), attributes) == Outcome(PERMITTED, None)
      && EvaluateCondition(procs, EvaluateAttribute("level", LT, "3"), attributes) == Outcome(DENIED, None)
      && EvaluateCondition(procs, EvaluateAttribute("tier", EQ, "gold"), attributes) == Outcome(DENIED, None)
      && EvaluateCondition(procs, Negation(Some(HasAttribute(["missing"]))), attributes) == Outcome(PERMITTED, None)
      && EvaluateCondition(procs, And([HasAttribute(["missing"]), Unset]), attributes) == Outcome(DENIED, None)
  {
    var attributes := map["role" := "admin", "level" := "5"];
    HasAttributeVerdict(procs, ["role", "region"], attributes);
    assert "region" in ["role", "region"];
    HasAttributeVerdict(procs, ["role"], attributes);
    EvaluateAttributeVerdict(procs, "level", GTE, "3", attributes);
    EvaluateAttributeVerdict(procs, "level", LT, "3", attributes);
    EvaluateAttributeVerdict(procs, "tier", EQ, "gold", attributes);
    HasAttributeVerdict(procs, ["missing"], attributes);
    assert "missing" in ["missing"];
    NegationVerdict(procs, Some(HasAttribute(["missing"])), attributes);
    AndStopsAtFirst(procs, [HasAttribute(["missing"]), Unset], 0, attributes);
  }

  /** The corrected Or stops at its first PERMITTED child even when a later
      child would fail. */
  lemma IntendedOrExample()
    ensures EvaluateCondition(IntendedProcessors, Or([HasAttribute([]), Unset]), map[]) == Outcome(PERMITTED, None)
  {
    HasAttributeVerdict(IntendedProcessors, [], map[]);
    IntendedOrStopsAtFirst([HasAttribute([]), Unset], 0, map[]);
  }

  /** Check: a policy without a condition fails; otherwise the condition is
      evaluated against the projection of the group's attributes. */
  function CheckPolicy(procs: seq<Processor>, policy: Policy, group: Proto.Group): (r: Outcome)
    ensures Final(r)
    ensures policy.condition.None? ==> r == Outcome(UNKNOWN, Some(Error(EmptyConditionMessage + policy.id)))
  {
    match policy.condition
    case None => Outcome(UNKNOWN, Some(Error(EmptyConditionMessage + policy.id)))
    case Some(cond) => EvaluateCondition(procs, cond, Groups.FromPB(group).attributes)
  }

  /** engine: the processor list is its only state. */
  class Engine {
    var conditionProcessors: seq<Processor>

    constructor ()
      ensures conditionProcessors == []
    {
      conditionProcessors := [];
    }

    /** init: installs the five processors. */
    method Init()
      modifies this
      ensures conditionProcessors == InitProcessors
    {
      conditionProcessors := InitProcessors;
    }

    function Check(policy: Policy, group: Proto.Group): (r: Outcome)
      reads this
      ensures Final(r)
      ensures policy.condition.None? ==> r.err == Some(Error(EmptyConditionMessage + policy.id))
      ensures conditionProcessors == [] ==> r.err.Some?
    {
      CheckPolicy(conditionProcessors, policy, group)
    }
  }

  /** NewEngine: returns an engine on which `init` has not been called. */
  method NewEngine() returns (e: Engine)
    ensures fresh(e) && e.conditionProcessors == []
  {
    e := new Engine();
  }
}
