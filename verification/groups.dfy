/** Package group: the attribute projection used by the policy engine
    (type.go) and the merge of several groups into one (merger.go). */
module Groups {
  import Proto

  /** group.Group: a group whose attributes are projected into a lookup map. */
  datatype Group = Group(id: string, attributes: map<string, string>)

  function KeysOf(attributes: seq<Proto.Attribute>): set<string>
  {
    set i | 0 <= i < |attributes| :: attributes[i].key
  }

  /** The map attributesToMap builds: a left fold over the list in which a
      later attribute overwrites an earlier one with the same key. */
  function Projection(attributes: seq<Proto.Attribute>): map<string, string>
  {
    if attributes == [] then map[]
    else
      var last := attributes[|attributes| - 1];
      Projection(attributes[..|attributes| - 1])[last.key := last.value]
  }

  /** attributesToMap: fills a fresh map one attribute at a time. */
  method AttributesToMap(attributes: seq<Proto.Attribute>) returns (attributeMap: map<string, string>)
    ensures attributeMap == Projection(attributes)
    ensures attributeMap.Keys == KeysOf(attributes)
  {
    attributeMap := map[];
    for i := 0 to |attributes|
      invariant attributeMap == Projection(attributes[..i])
    {
      assert attributes[..i + 1][..i] == attributes[..i];
      attributeMap := attributeMap[attributes[i].key := attributes[i].value];
    }
    assert attributes[..|attributes|] == attributes;
    ProjectionKeys(attributes);
  }

  /** FromPB: keeps the id and projects the attribute list. */
  function FromPB(pbGroup: Proto.Group): (r: Group)
    ensures r.id == pbGroup.id
    ensures r.attributes.Keys == KeysOf(pbGroup.attributes)
  {
    ProjectionKeys(pbGroup.attributes);
    Group(pbGroup.id, Projection(pbGroup.attributes))
  }

  /** The projection's key set is the set of keys occurring in the list. */
  lemma {:induction false} ProjectionKeys(attributes: seq<Proto.Attribute>)
    ensures Projection(attributes).Keys == KeysOf(attributes)
  {
    if attributes != [] {
      var init := attributes[..|attributes| - 1];
      ProjectionKeys(init);
      assert attributes == init + [attributes[|attributes| - 1]];
      forall k | k in KeysOf(attributes) ensures k in Projection(attributes) {
        var i :| 0 <= i < |attributes| && attributes[i].key == k;
        if i < |init| { assert init[i].key == k; }
      }
      forall k | k in KeysOf(init) ensures k in KeysOf(attributes) {
        var i :| 0 <= i < |init| && init[i].key == k;
        assert attributes[i].key == k;
      }
    }
  }

  /** Appending one attribute overwrites (or adds) exactly its key. */
  lemma ProjectionSnoc(attributes: seq<Proto.Attribute>, a: Proto.Attribute)
    ensures Projection(attributes + [a]) == Projection(attributes)[a.key := a.value]
  {
    assert (attributes + [a])[..|attributes|] == attributes;
  }

  /** Projecting a concatenation overlays the second projection on the first. */
  lemma {:induction false} ProjectionAppend(xs: seq<Proto.Attribute>, ys: seq<Proto.Attribute>)
    ensures Projection(xs + ys) == Projection(xs) + Projection(ys)
  {
    if ys == [] {
      assert xs + ys == xs;
    } else {
      var init := ys[..|ys| - 1];
      var last := ys[|ys| - 1];
      var (front, back) := (Projection(xs), Projection(init));
      ProjectionAppend(xs, init);
      assert xs + ys == (xs + init) + [last];
      ProjectionSnoc(xs + init, last);
      assert Projection(xs + ys) == (front + back)[last.key := last.value];
      assert ys == init + [last];
      ProjectionSnoc(init, last);
      OverrideUpdate(front, back, last.key, last.value);
    }
  }

  /** Updating an overlay is overlaying the updated second map. */
  lemma OverrideUpdate(a: map<string, string>, b: map<string, string>, k: string, v: string)
    ensures (a + b)[k := v] == a + b[k := v]
  {
    var (l, r) := ((a + b)[k := v], a + b[k := v]);
    assert l.Keys == r.Keys;
    forall x | x in l ensures l[x] == r[x] {
      if x != k && x in b {
        assert l[x] == b[x];
      }
    }
  }

  /** For every key, the projected value is the value of the last attribute
      with that key in list order. */
  lemma {:induction false} ProjectionLastWins(attributes: seq<Proto.Attribute>, i: nat)
    requires i < |attributes|
    requires forall j | i < j < |attributes| :: attributes[j].key != attributes[i].key
    ensures attributes[i].key in Projection(attributes)
    ensures Projection(attributes)[attributes[i].key] == attributes[i].value
  {
    var n := |attributes|;
    if i < n - 1 {
      var init := attributes[..n - 1];
      ProjectionLastWins(init, i);
    }
  }

  /** MergeGroups' result: the concatenation of the groups' attribute lists in order. */
  function Flatten(groups: seq<Proto.Group>): seq<Proto.Attribute>
  {
    if groups == [] then []
    else Flatten(groups[..|groups| - 1]) + groups[|groups| - 1].attributes
  }

  /** MergeGroups: one synthetic group with no id. */
  method MergeGroups(groups: seq<Proto.Group>) returns (finalGroup: Proto.Group)
    ensures finalGroup.id == ""
    ensures finalGroup.attributes == Flatten(groups)
  {
    finalGroup := Proto.Group("", []);
    for i := 0 to |groups|
      invariant finalGroup.id == ""
      invariant finalGroup.attributes == Flatten(groups[..i])
    {
      assert groups[..i + 1][..i] == groups[..i];
      finalGroup := finalGroup.(attributes := finalGroup.attributes + groups[i].attributes);
    }
    assert groups[..|groups|] == groups;
  }

  /** Flatten distributes over concatenation of group lists. */
  lemma {:induction false} FlattenAppend(gs: seq<Proto.Group>, hs: seq<Proto.Group>)
    ensures Flatten(gs + hs) == Flatten(gs) + Flatten(hs)
  {
    if hs == [] {
      assert gs + hs == gs;
    } else {
      var init := hs[..|hs| - 1];
      FlattenAppend(gs, init);
      assert (gs + hs)[..|gs + hs| - 1] == gs + init;
    }
  }

  function TotalAttributes(groups: seq<Proto.Group>): nat
  {
    if groups == [] then 0 else |groups[0].attributes| + TotalAttributes(groups[1..])
  }

  /** The merged length is the sum of the input lengths. */
  lemma {:induction false} FlattenLength(groups: seq<Proto.Group>)
    ensures |Flatten(groups)| == TotalAttributes(groups)
  {
    if groups != [] {
      FlattenLength(groups[1..]);
      FlattenAppend([groups[0]], groups[1..]);
      assert [groups[0]] + groups[1..] == groups;
      assert Flatten([groups[0]]) == groups[0].attributes by {
        assert [groups[0]][..0] == [];
      }
    }
  }

  /** A key that no group carries does not occur in the merged list. */
  lemma {:induction false} KeyAbsentFromFlatten(groups: seq<Proto.Group>, k: string)
    requires forall j | 0 <= j < |groups| :: k !in KeysOf(groups[j].attributes)
    ensures k !in KeysOf(Flatten(groups))
  {
    if groups != [] {
      var init := groups[..|groups| - 1];
      KeyAbsentFromFlatten(init, k);
      var last := groups[|groups| - 1].attributes;
      assert k !in KeysOf(last);
    }
  }

  /** The merged list splits around any one group. */
  lemma FlattenAround(groups: seq<Proto.Group>, i: nat)
    requires i < |groups|
    ensures Flatten(groups) == Flatten(groups[..i]) + groups[i].attributes + Flatten(groups[i + 1..])
  {
    var before, after := groups[..i + 1], groups[i + 1..];
    assert groups == before + after;
    FlattenAppend(before, after);
    assert before[..|before| - 1] == groups[..i];
  }

  /** Merge then project: a key's effective value comes from the last group,
      in list order, whose attributes contain it. */
  lemma EffectiveValueFromLastGroup(groups: seq<Proto.Group>, i: nat, k: string)
    requires i < |groups|
    requires k in Projection(groups[i].attributes)
    requires forall j | i < j < |groups| :: k !in Projection(groups[j].attributes)
    ensures k in Projection(Flatten(groups))
    ensures Projection(Flatten(groups))[k] == Projection(groups[i].attributes)[k]
  {
    var a, b, c := Flatten(groups[..i]), groups[i].attributes, Flatten(groups[i + 1..]);
    FlattenAround(groups, i);
    var after := groups[i + 1..];
    forall j | 0 <= j < |after| ensures k !in KeysOf(after[j].attributes) {
      assert after[j] == groups[i + 1 + j];
      ProjectionKeys(after[j].attributes);
    }
    KeyAbsentFromFlatten(after, k);
    ProjectionKeys(c);
    assert k !in Projection(c);
    ProjectionAppend(a + b, c);
    ProjectionAppend(a, b);
  }
}
