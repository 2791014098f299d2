/** The helpers of a model instance: partitioning its attributes into scalar
    properties and relations, the property-bag text, the statements `create`
    runs, and `save`. */
module BaseModel {
  import opened PyValues
  import opened Proxies
  import opened Text
  import Relations

  /** A value held in an instance's `__dict__`: a property value (a plain value
      or a change recorder) or a relation object. */
  datatype Attribute = Value(o: Obj) | RelationValue(field: Relations.RelationField)

  const RecorderMro: seq<string> := ["akiradb.model.proxies.PropertyChangesRecorder", "builtins.object"]

  /** `module + "." + name` of every class in `type(a).__mro__`. */
  function AttributeMro(a: Attribute): seq<string> {
    match a
    case Value(Plain(v)) => Mro(v)
    case Value(Rec(_)) => RecorderMro
    case RelationValue(f) => Relations.RelationMro(f)
  }

  /** The test the split applies: `Relation` is among the value's classes. */
  predicate IsRelation(a: Attribute) {
    Relations.RelationClass in AttributeMro(a)
  }

  lemma RelationValueIsRelation(f: Relations.RelationField)
    ensures IsRelation(RelationValue(f))
  {
  }

  /** Which attributes the test sends where: every relation object is a
      relation, and so is any other object whose class is `Relation` or
      derives from it; recorders and built-in values are properties. */
  lemma Classification(f: Relations.RelationField, r: Recorder, v: Scalar)
    ensures IsRelation(RelationValue(f))
    ensures !IsRelation(Value(Rec(r)))
    ensures !v.OtherValue? ==> !IsRelation(Value(Plain(v)))
    ensures v.OtherValue? ==>
              (IsRelation(Value(Plain(v))) <==> v.typeName == Relations.RelationClass || Relations.RelationClass in v.bases)
  {
    if !v.OtherValue? {
      assert Relations.RelationClass != Mro(v)[0];
    }
  }

  // ---------------------------------------------------------------------------
  // Splitting the attributes

  /** `_split_properties_and_relationships`: walks the attributes in order and
      appends each to the relations or to the properties, by the class test.
      Only a value can fail the test, so the properties carry the value
      itself. */
  function SplitPropertiesAndRelationships(attrs: seq<(string, Attribute)>)
    : (r: (seq<(string, Obj)>, seq<(string, Attribute)>))
    ensures |r.0| + |r.1| == |attrs|
    decreases |attrs|
  {
    if |attrs| == 0 then ([], [])
    else
      var prefix := attrs[..|attrs| - 1];
      var (name, value) := attrs[|attrs| - 1];
      var (properties, relationships) := SplitPropertiesAndRelationships(prefix);
      assert attrs == prefix + [(name, value)];
      match value
      case RelationValue(_) => (properties, relationships + [(name, value)])
      case Value(o) =>
        if IsRelation(value) then (properties, relationships + [(name, value)])
        else (properties + [(name, o)], relationships)
  }

  /** Every attribute lands in exactly the half the class test picks: the
      relations are the attributes that pass it, the properties the values
      that fail it, each with its name and value unchanged. */
  lemma {:induction false} SplitClassifies(attrs: seq<(string, Attribute)>)
    ensures var r := SplitPropertiesAndRelationships(attrs);
      && (forall p :: p in r.0 ==> (p.0, Value(p.1)) in attrs && !IsRelation(Value(p.1)))
      && (forall p :: p in r.1 ==> p in attrs && IsRelation(p.1))
      && (forall p :: p in attrs && IsRelation(p.1) ==> p in r.1)
      && (forall p :: p in attrs && !IsRelation(p.1) ==> p.1.Value? && (p.0, p.1.o) in r.0)
    decreases |attrs|
  {
    if |attrs| > 0 {
      var prefix := attrs[..|attrs| - 1];
      var x := attrs[|attrs| - 1];
      SplitClassifies(prefix);
      assert attrs == prefix + [x];
      var r0 := SplitPropertiesAndRelationships(prefix);
      if x.1.RelationValue? {
        RelationValueIsRelation(x.1.field);
      }
    }
  }

  /** The split's test, as it decides for one attribute: a value whose class
      is not `Relation` or a subclass of it goes to the properties. */
  predicate GoesToProperties(a: Attribute) {
    a.Value? && !IsRelation(a)
  }

  /** The property half, read front to back: each non-relation attribute's
      name and value, in attribute order. */
  function PropertiesOf(attrs: seq<(string, Attribute)>): seq<(string, Obj)>
    decreases |attrs|
  {
    if |attrs| == 0 then []
    else
      var rest := PropertiesOf(attrs[1..]);
      if GoesToProperties(attrs[0].1) then [(attrs[0].0, attrs[0].1.o)] + rest else rest
  }

  /** The relation half, read front to back: each relation attribute, in
      attribute order. */
  function RelationsOf(attrs: seq<(string, Attribute)>): seq<(string, Attribute)>
    decreases |attrs|
  {
    if |attrs| == 0 then []
    else
      var rest := RelationsOf(attrs[1..]);
      if GoesToProperties(attrs[0].1) then rest else [attrs[0]] + rest
  }

  lemma {:induction false} HalvesAppend(a: seq<(string, Attribute)>, x: (string, Attribute))
    ensures !GoesToProperties(x.1) ==> PropertiesOf(a + [x]) == PropertiesOf(a) && RelationsOf(a + [x]) == RelationsOf(a) + [x]
    ensures GoesToProperties(x.1) ==> PropertiesOf(a + [x]) == PropertiesOf(a) + [(x.0, x.1.o)] && RelationsOf(a + [x]) == RelationsOf(a)
    decreases |a|
  {
    if |a| == 0 {
      assert a + [x] == [x];
      assert [x][1..] == [];
    } else {
      assert (a + [x])[1..] == a[1..] + [x];
      HalvesAppend(a[1..], x);
    }
  }

  lemma HalvesLast(attrs: seq<(string, Attribute)>)
    requires |attrs| > 0
    ensures var prefix, x := attrs[..|attrs| - 1], attrs[|attrs| - 1];
      (PropertiesOf(attrs), RelationsOf(attrs))
        == if GoesToProperties(x.1) then (PropertiesOf(prefix) + [(x.0, x.1.o)], RelationsOf(prefix))
           else (PropertiesOf(prefix), RelationsOf(prefix) + [x])
  {
    var prefix, x := attrs[..|attrs| - 1], attrs[|attrs| - 1];
    assert attrs == prefix + [x];
    HalvesAppend(prefix, x);
  }

  /** One step of the loop: the last attribute goes to the end of the half
      the test picks. */
  lemma SplitStep(attrs: seq<(string, Attribute)>)
    requires |attrs| > 0
    ensures var prefix, x := attrs[..|attrs| - 1], attrs[|attrs| - 1];
      var r0 := SplitPropertiesAndRelationships(prefix);
      SplitPropertiesAndRelationships(attrs)
        == if GoesToProperties(x.1) then (r0.0 + [(x.0, x.1.o)], r0.1) else (r0.0, r0.1 + [x])
  {
  }

  /** The split keeps attribute order in both halves: it agrees with the
      front-to-back reading. */
  lemma {:induction false} SplitKeepsOrder(attrs: seq<(string, Attribute)>)
    ensures SplitPropertiesAndRelationships(attrs) == (PropertiesOf(attrs), RelationsOf(attrs))
    decreases |attrs|
  {
    if |attrs| > 0 {
      var prefix := attrs[..|attrs| - 1];
      var x := attrs[|attrs| - 1];
      SplitKeepsOrder(prefix);
      SplitStep(attrs);
      HalvesLast(attrs);
    }
  }

  /** With distinct attribute names the two halves are disjoint and together
      hold every name: a partition of the attributes. */
  lemma SplitPartitions(attrs: seq<(string, Attribute)>)
    requires DistinctNames(attrs, (p: (string, Attribute)) => p.0)
    ensures var r := SplitPropertiesAndRelationships(attrs);
      && (set p | p in r.0 :: p.0) !! (set p | p in r.1 :: p.0)
      && (set p | p in r.0 :: p.0) + (set p | p in r.1 :: p.0) == set p | p in attrs :: p.0
  {
    var r := SplitPropertiesAndRelationships(attrs);
    SplitClassifies(attrs);
    var ps := set p | p in r.0 :: p.0;
    var rs := set p | p in r.1 :: p.0;
    forall p, q | p in r.0 && q in r.1
      ensures p.0 != q.0
    {
      assert (p.0, Value(p.1)) in attrs;
      var i :| 0 <= i < |attrs| && attrs[i] == (p.0, Value(p.1));
      var j :| 0 <= j < |attrs| && attrs[j] == q;
      assert i != j;
      if i < j {
        assert attrs[i].0 != attrs[j].0;
      } else {
        assert attrs[j].0 != attrs[i].0;
      }
    }
    forall k | k in (set p | p in attrs :: p.0)
      ensures k in ps + rs
    {
      var p :| p in attrs && p.0 == k;
      if IsRelation(p.1) {
        assert p in r.1;
      } else {
        assert (p.0, p.1.o) in r.0;
      }
    }
  }

  /** A relation attribute, wherever it stands, leaves the properties and
      their order unchanged. */
  lemma {:induction false} SplitIgnoresRelation(a: seq<(string, Attribute)>, x: (string, Attribute), b: seq<(string, Attribute)>)
    requires IsRelation(x.1)
    ensures SplitPropertiesAndRelationships(a + [x] + b).0 == SplitPropertiesAndRelationships(a + b).0
    decreases |b|
  {
    if |b| == 0 {
      assert a + [x] + b == a + [x];
      assert a + b == a;
      assert (a + [x])[..|a + [x]| - 1] == a;
    } else {
      var b' := b[..|b| - 1];
      var last := b[|b| - 1];
      assert (a + [x] + b)[..|a + [x] + b| - 1] == a + [x] + b';
      assert (a + [x] + b)[|a + [x] + b| - 1] == last;
      assert (a + b)[..|a + b| - 1] == a + b';
      assert (a + b)[|a + b| - 1] == last;
      SplitIgnoresRelation(a, x, b');
    }
  }

  // ---------------------------------------------------------------------------
  // Property bag and statements

  /** Each property paired with the `repr` of its value. */
  function ReprPairs(properties: seq<(string, Obj)>): (r: seq<(string, string)>)
    ensures |r| == |properties|
    ensures forall i :: 0 <= i < |properties| ==> r[i] == (properties[i].0, ObjRepr(properties[i].1))
  {
    seq(|properties|, i requires 0 <= i < |properties| => (properties[i].0, ObjRepr(properties[i].1)))
  }

  /** `_transform_properties_to_cypher`: writes `name: repr(value)` for each
      property in order, with a comma between consecutive entries. */
  method TransformPropertiesToCypher(properties: seq<(string, Obj)>) returns (text: string)
    ensures text == PropertyBag(ReprPairs(properties))
    ensures |properties| == 0 ==> text == ""
  {
    text := "";
    var i := 0;
    while i < |properties|
      invariant 0 <= i <= |properties|
      invariant text == PropertyBag(ReprPairs(properties[..i]))
    {
      var (name, value) := properties[i];
      var entry := Entry(name, ObjRepr(value));
      assert ReprPairs(properties[..i + 1]) == ReprPairs(properties[..i]) + [(name, ObjRepr(value))];
      if i == 0 {
        text := entry;
      } else {
        PropertyBagAppend(ReprPairs(properties[..i]), name, ObjRepr(value));
        text := text + "," + entry;
      }
      i := i + 1;
    }
    assert properties[..i] == properties;
  }

  /** `{cypher} create (:<qualname> {<bag>});` */
  function CreateText(qualname: string, bag: string): string {
    "{cypher} create (:" + qualname + " {" + bag + "});"
  }

  /** A model instance as `create` and `save` see it: its class's qualified
      name, its attributes in order, and its queue of pending link
      operations. */
  datatype Model = Model(qualname: string, attributes: seq<(string, Attribute)>, queue: seq<Relations.Link>)

  /** What a call against the database does: the statements that reach it, in
      order, and what the call returns or raises. */
  datatype Run = Run(executed: seq<string>, outcome: Result<Model>)

  /** `create` as written: the create text is built as the argument, but
      `execute` is an asynchronous context manager, so calling it runs nothing,
      and awaiting the manager it returns raises `TypeError`. No statement
      reaches the database and the instance is never returned. */
  function CreateAsWritten(m: Model): (r: Run)
    ensures r.executed == []
    ensures r.outcome.Err? && r.outcome.error == TypeError
  {
    var _ := PropertyBag(ReprPairs(SplitPropertiesAndRelationships(m.attributes).0));
    Run([], Err(TypeError))
  }

  /** The as-written `create` never hands the instance back and leaves the
      database without its node, for every instance. */
  lemma CreateAsWrittenCreatesNothing(m: Model)
    ensures CreateAsWritten(m).outcome != Ok(m)
    ensures forall s :: s in CreateAsWritten(m).executed ==> s != "commit;"
  {
  }

  /** `create` with `execute` entered as a context manager, as `commit` does:
      runs the create statement built from the property half of the split,
      then `commit;`, and returns the instance itself, unchanged. The
      not-connected check of `execute` is outside this model. */
  method Create(m: Model) returns (run: Run)
    ensures run.outcome == Ok(m)
    ensures |run.executed| == 2 && run.executed[1] == "commit;"
    ensures run.executed[0] == CreateText(m.qualname, PropertyBag(ReprPairs(PropertiesOf(m.attributes))))
  {
    var (properties, _) := SplitPropertiesAndRelationships(m.attributes);
    SplitKeepsOrder(m.attributes);
    var bag := TransformPropertiesToCypher(properties);
    run := Run([CreateText(m.qualname, bag), "commit;"], Ok(m));
  }

  /** No property name and no value text holds a comma. */
  predicate CommaFree(properties: seq<(string, Obj)>) {
    forall i :: 0 <= i < |properties| ==> ',' !in properties[i].0 && ',' !in ObjRepr(properties[i].1)
  }

  /** The create statement holds exactly the instance's non-relation
      attributes: when no name and no value text holds a comma, the bag between
      the braces splits into one `name: repr` entry per property, in
      attribute order. */
  lemma CreateListsProperties(m: Model)
    requires CommaFree(PropertiesOf(m.attributes))
    ensures var ps := PropertiesOf(m.attributes);
      var bag := PropertyBag(ReprPairs(SplitPropertiesAndRelationships(m.attributes).0));
      && (|ps| == 0 ==> bag == "")
      && (|ps| >= 1 ==> Split(bag, ',') == Entries(ReprPairs(ps)))
  {
    SplitKeepsOrder(m.attributes);
    var ps := PropertiesOf(m.attributes);
    var pairs := ReprPairs(ps);
    if |ps| >= 1 {
      forall i | 0 <= i < |pairs|
        ensures ',' !in pairs[i].0 && ',' !in pairs[i].1
      {
        assert pairs[i] == (ps[i].0, ObjRepr(ps[i].1));
      }
      PropertyBagSplits(pairs);
    }
  }

  /** `save`: does nothing; in particular the queued link operations stay
      pending. */
  function Save(m: Model): (r: Model)
    ensures r.queue == m.queue && r.attributes == m.attributes && r.qualname == m.qualname
  {
    m
  }
}
