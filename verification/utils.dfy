/** Scalar helpers of the mapper: the store type chosen for a declared Python
    type, the literal text of a value inside a statement, and the normalisation
    of a result row before it becomes constructor arguments. */
module Utils {
  import opened PyValues
  import opened Proxies

  // ---------------------------------------------------------------------------
  // Store property types

  /** A field annotation: a class, or a `Union`/`X | Y` of members. */
  datatype PyType =
    | IntType
    | BoolType
    | FloatType
    | BytesType
    | DateType
    | DateTimeType
    | StrType
    | NoneType
    | OtherType(qualName: string)
    | Union(members: seq<PyType>)

  /** The store-side property kinds. */
  datatype StoreType = Integer | Boolean | Double | Byte | Date | DateTime | String {
    /** The keyword the store uses for the kind. */
    function Name(): string {
      match this
      case Integer => "integer"
      case Boolean => "boolean"
      case Double => "double"
      case Byte => "byte"
      case Date => "date"
      case DateTime => "datetime"
      case String => "string"
    }
  }

  /** The members of a union other than `NoneType`, in order. */
  function NonNoneMembers(ms: seq<PyType>): (r: seq<PyType>)
    ensures forall i :: 0 <= i < |r| ==> r[i] != NoneType && r[i] in ms
    ensures (forall i :: 0 <= i < |ms| ==> ms[i] == NoneType) <==> |r| == 0
    ensures |ms| > 0 && ms[0] != NoneType ==> |r| > 0 && r[0] == ms[0]
  {
    if |ms| == 0 then []
    else
      var rest := NonNoneMembers(ms[1..]);
      if ms[0] == NoneType then rest else [ms[0]] + rest
  }

  /** The filter drops exactly the `NoneType` members and keeps every other
      member as often as it occurs. */
  lemma {:induction false} NonNoneMembersCounts(ms: seq<PyType>)
    ensures multiset(NonNoneMembers(ms)) == multiset(ms)[NoneType := 0]
    decreases |ms|
  {
    if |ms| > 0 {
      assert ms == [ms[0]] + ms[1..];
      assert multiset(ms) == multiset{ms[0]} + multiset(ms[1..]);
      NonNoneMembersStep(ms);
      NonNoneMembersCounts(ms[1..]);
    }
  }

  /** A union without `NoneType` keeps all its members. */
  lemma {:induction false} NonNoneMembersKeepsAll(ms: seq<PyType>)
    requires forall i :: 0 <= i < |ms| ==> ms[i] != NoneType
    ensures NonNoneMembers(ms) == ms
    decreases |ms|
  {
    if |ms| > 0 {
      assert forall i :: 0 <= i < |ms[1..]| ==> ms[1..][i] == ms[i + 1];
      NonNoneMembersStep(ms);
      NonNoneMembersKeepsAll(ms[1..]);
      assert [ms[0]] + ms[1..] == ms;
    }
  }

  /** One step of the filter: a leading `NoneType` is dropped and any other
      leading member is kept in front of the filtered rest. */
  lemma NonNoneMembersStep(ms: seq<PyType>)
    requires |ms| > 0
    ensures ms[0] == NoneType ==> NonNoneMembers(ms) == NonNoneMembers(ms[1..])
    ensures ms[0] != NoneType ==> NonNoneMembers(ms) == [ms[0]] + NonNoneMembers(ms[1..])
  {
  }

  /** Dropping the head of `a + b`, for a non-empty `a`, and regrouping a
      three-part concatenation: facts about sequences alone, kept apart from
      the filter so that proofs about it need no sequence extensionality. */
  lemma ConcatShapes(a: seq<PyType>, b: seq<PyType>, c: seq<PyType>)
    requires |a| > 0
    ensures (a + b)[0] == a[0] && (a + b)[1..] == a[1..] + b
    ensures [a[0]] + (b + c) == ([a[0]] + b) + c
  {
  }

  /** One step of `NonNoneMembersConcat`: the claim for `a` follows from the
      claim for `a` without its first member. */
  lemma NonNoneMembersConcatStep(a: seq<PyType>, b: seq<PyType>)
    requires |a| > 0
    requires NonNoneMembers(a[1..] + b) == NonNoneMembers(a[1..]) + NonNoneMembers(b)
    ensures NonNoneMembers(a + b) == NonNoneMembers(a) + NonNoneMembers(b)
  {
    ConcatShapes(a, NonNoneMembers(a[1..]), NonNoneMembers(b));
    ConcatShapes(a, b, b);
    NonNoneMembersStep(a + b);
    NonNoneMembersStep(a);
  }

  /** Filtering a concatenation filters each part and keeps them in order: the
      members keep their relative order. */
  lemma {:induction false} NonNoneMembersConcat(a: seq<PyType>, b: seq<PyType>)
    ensures NonNoneMembers(a + b) == NonNoneMembers(a) + NonNoneMembers(b)
    decreases |a|
  {
    if |a| == 0 {
      assert a + b == b;
    } else {
      NonNoneMembersConcat(a[1..], b);
      NonNoneMembersConcatStep(a, b);
    }
  }

  /** The kind of a class compared by identity; everything unlisted is a
      string. */
  function KindOf(t: PyType): StoreType {
    match t
    case IntType => Integer
    case BoolType => Boolean
    case FloatType => Double
    case BytesType => Byte
    case DateType => Date
    case DateTimeType => DateTime
    case _ => String
  }

  /** `_get_cypher_property_type`: a union is replaced by its first non-`None`
      member (an `IndexError` when it has none), then the class picks the kind. */
  function PropertyType(t: PyType): (r: Result<StoreType>)
    ensures !t.Union? ==> r == Ok(KindOf(t))
    ensures t.Union? ==> (r.Err? <==> |NonNoneMembers(t.members)| == 0)
    ensures t.Union? && r.Ok? ==> r.value == KindOf(NonNoneMembers(t.members)[0])
    ensures r.Err? ==> r.error == IndexError
  {
    if t.Union? then
      var candidates := NonNoneMembers(t.members);
      if |candidates| == 0 then Err(IndexError) else Ok(KindOf(candidates[0]))
    else Ok(KindOf(t))
  }

  /** The class the mapper reads back for each store kind. */
  function Canonical(k: StoreType): PyType {
    match k
    case Integer => IntType
    case Boolean => BoolType
    case Double => FloatType
    case Byte => BytesType
    case Date => DateType
    case DateTime => DateTimeType
    case String => StrType
  }

  /** The mapping is onto: every store kind is the kind of some class, and
      distinct kinds have distinct keywords. */
  lemma PropertyTypeOnto(k: StoreType, k': StoreType)
    ensures PropertyType(Canonical(k)) == Ok(k)
    ensures k != k' ==> k.Name() != k'.Name()
  {
  }

  /** Only the six listed classes get a kind other than `string`. */
  lemma StringIsTheFallback(t: PyType)
    requires !t.Union?
    ensures PropertyType(t) == Ok(String) <==>
              !(t.IntType? || t.BoolType? || t.FloatType? || t.BytesType? || t.DateType? || t.DateTimeType?)
  {
  }

  /** `Optional[T]`, written either way round, maps like `T`. */
  lemma OptionalUnwraps(t: PyType)
    requires !t.Union? && t != NoneType
    ensures PropertyType(Union([t, NoneType])) == PropertyType(t)
    ensures PropertyType(Union([NoneType, t])) == PropertyType(t)
  {
    assert NonNoneMembers([t, NoneType])[0] == t;
    assert [NoneType, t][1..] == [t];
    assert NonNoneMembers([NoneType, t]) == NonNoneMembers([t]);
  }

  // ---------------------------------------------------------------------------
  // Literal text of a value

  /** `_get_cypher_value`: a recorder is first replaced by its value (one level);
      then `None` is `null`, an instance of `datetime.date` or of any class
      derived from it (`datetime` among them) is its ISO text in single
      quotes, and anything else is its `repr`. */
  function CypherValue(value: Obj): (r: string)
    ensures Unwrap(value) == Plain(NoneValue) ==> r == "null"
    ensures Unwrap(value).Plain? && IsDate(Unwrap(value).v) ==> r == "'" + IsoText(Unwrap(value).v) + "'"
    ensures Unwrap(value).Plain? && Unwrap(value).v.DateValue? ==> r == "'" + Unwrap(value).v.date.isoText + "'"
    ensures Unwrap(value).Plain? && Unwrap(value).v.DateTimeValue? ==> r == "'" + Unwrap(value).v.dateTime.isoText + "'"
    ensures Unwrap(value).Plain? && Unwrap(value).v.OtherValue? && "datetime.date" in Unwrap(value).v.bases ==>
              r == "'" + Unwrap(value).v.isoText + "'"
    ensures !(Unwrap(value).Plain? && (Unwrap(value).v.NoneValue? || IsDate(Unwrap(value).v))) ==>
              r == ObjRepr(Unwrap(value))
  {
    var v := Unwrap(value);
    match v
    case Plain(NoneValue) => "null"
    case Plain(x) => if IsDate(x) then "'" + IsoText(x) + "'" else ObjRepr(v)
    case _ => ObjRepr(v)
  }

  /** An integer or a string is no date, so its literal is its `repr`. */
  lemma PlainLiterals(i: int, s: string)
    ensures CypherValue(Plain(NoneValue)) == "null"
    ensures CypherValue(Plain(IntValue(i))) == IntRepr(i)
    ensures CypherValue(Plain(StrValue(s))) == StrRepr(s)
  {
    assert |"datetime.date"| != |"builtins.int"| && |"datetime.date"| != |"builtins.object"|;
    assert !IsDate(IntValue(i)) && !IsDate(StrValue(s));
  }

  /** Integer and string literals read back to the value, and `null`, integer
      and string literals never coincide. */
  lemma LiteralsReadBack(i: int, s: string)
    ensures ParseInt(CypherValue(Plain(IntValue(i)))) == Some(i)
    ensures UnquoteStr(CypherValue(Plain(StrValue(s)))) == Some(s)
    ensures CypherValue(Plain(NoneValue)) != CypherValue(Plain(IntValue(i)))
    ensures CypherValue(Plain(NoneValue)) != CypherValue(Plain(StrValue(s)))
    ensures CypherValue(Plain(IntValue(i))) != CypherValue(Plain(StrValue(s)))
  {
    PlainLiterals(i, s);
    IntReprRoundTrip(i);
    StrReprRoundTrip(s);
    assert ParseInt("null") == None;
    assert UnquoteStr("null") == None;
  }

  /** A recorder renders like the plain value it holds. */
  lemma RecorderRendersAsItsValue(r: Recorder)
    requires r.value.Plain?
    ensures CypherValue(Rec(r)) == CypherValue(r.value)
  {
  }

  /** With the corrected `__set__`, a property's literal after an assignment is
      the literal of the assigned value, recorder or not. */
  lemma SetPreservesLiteral(d: Descriptor, inst: Instance, owner: map<string, ClassAttribute>, x: Obj)
    ensures Get(d, Set(d, inst, x), owner).Ok?
    ensures CypherValue(Get(d, Set(d, inst, x), owner).value) == CypherValue(x)
  {
    SetThenGet(d, inst, owner, x);
  }

  /** With the as-written `__set__`, assigning another instance's recorder to a
      property that has none nests it; one level of unwrapping then leaves a
      recorder, so a `None` value renders as `None` instead of `null`. */
  lemma NestedRecorderRendersNone()
    ensures
      var d := Descriptor("name");
      var blank := Instance(1, map[]);
      var other := Recorder(RecorderId(2, "name"), Plain(NoneValue), []);
      && CypherValue(Rec(other)) == "null"
      && CypherValue(Get(d, SetAsWritten(d, blank, Rec(other)), map[]).value) == "None"
      && CypherValue(Get(d, Set(d, blank, Rec(other)), map[]).value) == "null"
  {
  }

  // ---------------------------------------------------------------------------
  // Row hydration

  /** A dataclass field: its name and its declared type. */
  datatype Field = Field(name: string, fieldType: PyType)

  /** The store's marker for "no value". */
  const NullSentinel: string := "  cypher.null"

  /** The normalisation of one row value of a declared property: the sentinel
      becomes `None`; a truthy value of a field declared exactly `date` or
      `datetime` is read as milliseconds and converted from `value // 1000`
      seconds (a `bool` is an `int`; a string or a date makes `//` raise).
      The conversions `date.fromtimestamp` and `datetime.fromtimestamp` are
      parameters and may raise, as they do for a year past 9999. */
  function NormalizeValue(v: Scalar, t: PyType, dateOf: int -> Result<Moment>, dateTimeOf: int -> Result<Moment>)
    : Result<Scalar>
  {
    var parsed := if v == StrValue(NullSentinel) then NoneValue else v;
    if Truthy(parsed) && (t.DateType? || t.DateTimeType?) then
      match AsInt(parsed)
      case Some(ms) =>
        // Python's // floors; Dafny's / on a positive divisor does the same
        if t.DateType? then
          (match dateOf(ms / 1000)
           case Ok(m) => Ok(DateValue(m))
           case Err(e) => Err(e))
        else
          (match dateTimeOf(ms / 1000)
           case Ok(m) => Ok(DateTimeValue(m))
           case Err(e) => Err(e))
      case None => if parsed.OtherValue? then Err(OutsideModel) else Err(TypeError)
    else Ok(parsed)
  }

  /** What normalisation gives, case by case: the sentinel, pass-through,
      a successful or failing conversion, and a value `//` rejects; `r`
      fails exactly in the last two cases. */
  lemma NormalizeValueCases(v: Scalar, t: PyType, dateOf: int -> Result<Moment>, dateTimeOf: int -> Result<Moment>,
                            r: Result<Scalar>)
    requires r == NormalizeValue(v, t, dateOf, dateTimeOf)
    ensures v == StrValue(NullSentinel) ==> r == Ok(NoneValue)
    ensures v != StrValue(NullSentinel) && (!Truthy(v) || !(t.DateType? || t.DateTimeType?)) ==> r == Ok(v)
    ensures v != StrValue(NullSentinel) && Truthy(v) && t.DateType? && AsInt(v).Some? ==>
              && (dateOf(AsInt(v).value / 1000).Ok? ==> r == Ok(DateValue(dateOf(AsInt(v).value / 1000).value)))
              && (dateOf(AsInt(v).value / 1000).Err? ==> r == Err(dateOf(AsInt(v).value / 1000).error))
    ensures v != StrValue(NullSentinel) && Truthy(v) && t.DateTimeType? && AsInt(v).Some? ==>
              && (dateTimeOf(AsInt(v).value / 1000).Ok? ==> r == Ok(DateTimeValue(dateTimeOf(AsInt(v).value / 1000).value)))
              && (dateTimeOf(AsInt(v).value / 1000).Err? ==> r == Err(dateTimeOf(AsInt(v).value / 1000).error))
    ensures v != StrValue(NullSentinel) && Truthy(v) && (t.DateType? || t.DateTimeType?) && AsInt(v).None? ==>
              r == Err(if v.OtherValue? then OutsideModel else TypeError)
    ensures r.Err? <==>
              v != StrValue(NullSentinel) && Truthy(v) && (t.DateType? || t.DateTimeType?) &&
              (AsInt(v).None? ||
               (t.DateType? && dateOf(AsInt(v).value / 1000).Err?) ||
               (t.DateTimeType? && dateTimeOf(AsInt(v).value / 1000).Err?))
  {
  }

  /** `NormalizeValue` with the two conversions fixed, as a function of the
      row value and the declared type. */
  function Norm(dateOf: int -> Result<Moment>, dateTimeOf: int -> Result<Moment>): (Scalar, PyType) -> Result<Scalar> {
    (v: Scalar, t: PyType) => NormalizeValue(v, t, dateOf, dateTimeOf)
  }

  /** The value hydration gives a declared property under the normalisation
      `norm`: the normalised row value, or `None` when the row lacks it. */
  function ValueFor(row: map<string, Scalar>, f: Field, norm: (Scalar, PyType) -> Result<Scalar>): Result<Scalar> {
    if f.name in row then norm(row[f.name], f.fieldType) else Ok(NoneValue)
  }

  /** The value hydration gives a declared property. */
  function Expected(row: map<string, Scalar>, f: Field, dateOf: int -> Result<Moment>, dateTimeOf: int -> Result<Moment>): Result<Scalar> {
    ValueFor(row, f, Norm(dateOf, dateTimeOf))
  }

  /** The names of the fields that are property names, gathered front to back. */
  function DeclaredNames(fields: seq<Field>, propertyNames: set<string>): set<string>
    decreases |fields|
  {
    if |fields| == 0 then {}
    else
      var last := fields[|fields| - 1];
      DeclaredNames(fields[..|fields| - 1], propertyNames) + (if last.name in propertyNames then {last.name} else {})
  }

  lemma {:induction false} DeclaredNamesAre(fields: seq<Field>, propertyNames: set<string>)
    ensures DeclaredNames(fields, propertyNames) ==
            set i | 0 <= i < |fields| && fields[i].name in propertyNames :: fields[i].name
    decreases |fields|
  {
    if |fields| > 0 {
      var init := fields[..|fields| - 1];
      DeclaredNamesAre(init, propertyNames);
      forall n | n in set i | 0 <= i < |fields| && fields[i].name in propertyNames :: fields[i].name
        ensures n in DeclaredNames(fields, propertyNames)
      {
        var i :| 0 <= i < |fields| && fields[i].name in propertyNames && fields[i].name == n;
        if i < |fields| - 1 {
          assert init[i] == fields[i];
        }
      }
      forall n | n in DeclaredNames(fields, propertyNames)
        ensures n in set i | 0 <= i < |fields| && fields[i].name in propertyNames :: fields[i].name
      {
        if n in DeclaredNames(init, propertyNames) {
          var i :| 0 <= i < |init| && init[i].name in propertyNames && init[i].name == n;
          assert fields[i] == init[i];
        }
      }
    }
  }

  /** What the walk has built after visiting the first `n` fields: every
      declared property among them normalised successfully and holds its value,
      and every other row key keeps its row value. */
  predicate HydratedUpTo(row: map<string, Scalar>, fields: seq<Field>, propertyNames: set<string>,
                         norm: (Scalar, PyType) -> Result<Scalar>, n: nat, properties: map<string, Scalar>)
    requires n <= |fields|
  {
    && properties.Keys == row.Keys + DeclaredNames(fields[..n], propertyNames)
    && (forall j :: 0 <= j < n && fields[j].name in propertyNames ==> ValueFor(row, fields[j], norm).Ok?)
    && (forall j :: 0 <= j < n && fields[j].name in propertyNames ==>
          fields[j].name in properties && properties[fields[j].name] == ValueFor(row, fields[j], norm).value)
    && (forall k :: k in row && k !in DeclaredNames(fields[..n], propertyNames) ==> properties[k] == row[k])
  }

  /** One step of the walk: visiting field `n` writes its normalised value
      when it is declared and leaves the map alone otherwise. */
  lemma HydrateStep(row: map<string, Scalar>, fields: seq<Field>, propertyNames: set<string>,
                    norm: (Scalar, PyType) -> Result<Scalar>, n: nat, properties: map<string, Scalar>)
    requires DistinctNames(fields, (f: Field) => f.name)
    requires n < |fields| && HydratedUpTo(row, fields, propertyNames, norm, n, properties)
    requires fields[n].name in propertyNames ==> ValueFor(row, fields[n], norm).Ok?
    ensures HydratedUpTo(row, fields, propertyNames, norm, n + 1,
                         if fields[n].name in propertyNames
                         then properties[fields[n].name := ValueFor(row, fields[n], norm).value]
                         else properties)
  {
    var f := fields[n];
    assert fields[..n + 1][..n] == fields[..n];
    assert fields[..n + 1][n] == f;
    if f.name in propertyNames {
      var next := properties[f.name := ValueFor(row, f, norm).value];
      forall j | 0 <= j < n && fields[j].name in propertyNames
        ensures fields[j].name in next && next[fields[j].name] == ValueFor(row, fields[j], norm).value
      {
        assert fields[j].name != f.name;
      }
    }
  }

  /** Once every field is visited, the walk has written every declared
      property and kept every other row key. */
  lemma HydrateDone(row: map<string, Scalar>, fields: seq<Field>, propertyNames: set<string>,
                    norm: (Scalar, PyType) -> Result<Scalar>, properties: map<string, Scalar>)
    requires HydratedUpTo(row, fields, propertyNames, norm, |fields|, properties)
    ensures forall i :: 0 <= i < |fields| && fields[i].name in propertyNames ==> ValueFor(row, fields[i], norm).Ok?
    ensures properties.Keys == row.Keys + set i | 0 <= i < |fields| && fields[i].name in propertyNames :: fields[i].name
    ensures forall i :: 0 <= i < |fields| && fields[i].name in propertyNames ==>
              properties[fields[i].name] == ValueFor(row, fields[i], norm).value
    ensures forall k :: k in row && k !in propertyNames ==> properties[k] == row[k]
    ensures forall k :: k in row && (forall i :: 0 <= i < |fields| ==> fields[i].name != k) ==> properties[k] == row[k]
  {
    assert fields[..|fields|] == fields;
    DeclaredNamesAre(fields, propertyNames);
  }

  /** A declared field whose value fails to normalise, reached with every
      earlier declared field normalised, is the first failure. */
  lemma HydrateFails(row: map<string, Scalar>, fields: seq<Field>, propertyNames: set<string>,
                     norm: (Scalar, PyType) -> Result<Scalar>, n: nat, properties: map<string, Scalar>)
    requires n < |fields| && HydratedUpTo(row, fields, propertyNames, norm, n, properties)
    requires fields[n].name in propertyNames && ValueFor(row, fields[n], norm).Err?
    ensures !forall i :: 0 <= i < |fields| && fields[i].name in propertyNames ==> ValueFor(row, fields[i], norm).Ok?
    ensures exists i :: 0 <= i < |fields| && fields[i].name in propertyNames &&
              ValueFor(row, fields[i], norm) == Err(ValueFor(row, fields[n], norm).error) &&
              forall j :: 0 <= j < i && fields[j].name in propertyNames ==> ValueFor(row, fields[j], norm).Ok?
  {
  }

  /** The loop of `_parse_cypher_properties`, for a given normalisation of
      one value: fields are visited in order and only those whose names are
      property names are touched; the first normalisation that raises ends
      the walk with its error. */
  method HydrateRow(row: map<string, Scalar>, fields: seq<Field>, propertyNames: set<string>,
                    norm: (Scalar, PyType) -> Result<Scalar>)
    returns (r: Result<map<string, Scalar>>)
    requires DistinctNames(fields, (f: Field) => f.name)
    ensures r.Ok? <==> forall i :: 0 <= i < |fields| && fields[i].name in propertyNames ==>
                           ValueFor(row, fields[i], norm).Ok?
    ensures r.Ok? ==> r.value.Keys == row.Keys + set i | 0 <= i < |fields| && fields[i].name in propertyNames :: fields[i].name
    ensures r.Ok? ==> forall i :: 0 <= i < |fields| && fields[i].name in propertyNames ==>
                        r.value[fields[i].name] == ValueFor(row, fields[i], norm).value
    ensures r.Ok? ==> forall k :: k in row && k !in propertyNames ==> r.value[k] == row[k]
    ensures r.Ok? ==> forall k :: k in row && (forall i :: 0 <= i < |fields| ==> fields[i].name != k) ==> r.value[k] == row[k]
    ensures r.Err? ==> exists i :: 0 <= i < |fields| && fields[i].name in propertyNames &&
                          ValueFor(row, fields[i], norm) == Err(r.error) &&
                          forall j :: 0 <= j < i && fields[j].name in propertyNames ==> ValueFor(row, fields[j], norm).Ok?
  {
    var properties := row;
    var i := 0;
    while i < |fields|
      invariant 0 <= i <= |fields|
      invariant HydratedUpTo(row, fields, propertyNames, norm, i, properties)
    {
      var f := fields[i];
      if f.name in propertyNames {
        var e := ValueFor(row, f, norm);
        if e.Err? {
          HydrateFails(row, fields, propertyNames, norm, i, properties);
          return Err(e.error);
        }
      }
      HydrateStep(row, fields, propertyNames, norm, i, properties);
      if f.name in propertyNames {
        properties := properties[f.name := ValueFor(row, f, norm).value];
      }
      i := i + 1;
    }
    HydrateDone(row, fields, propertyNames, norm, properties);
    r := Ok(properties);
  }

  /** `_parse_cypher_properties` up to the constructor call: the keyword
      arguments it builds from a row, with dates read from milliseconds. */
  method ParseCypherProperties(row: map<string, Scalar>, fields: seq<Field>, propertyNames: set<string>,
                               dateOf: int -> Result<Moment>, dateTimeOf: int -> Result<Moment>)
    returns (r: Result<map<string, Scalar>>)
    requires DistinctNames(fields, (f: Field) => f.name)
    ensures r.Ok? <==> forall i :: 0 <= i < |fields| && fields[i].name in propertyNames ==>
                           Expected(row, fields[i], dateOf, dateTimeOf).Ok?
    ensures r.Ok? ==> r.value.Keys == row.Keys + set i | 0 <= i < |fields| && fields[i].name in propertyNames :: fields[i].name
    ensures r.Ok? ==> forall i :: 0 <= i < |fields| && fields[i].name in propertyNames ==>
                        r.value[fields[i].name] == Expected(row, fields[i], dateOf, dateTimeOf).value
    ensures r.Ok? ==> forall k :: k in row && k !in propertyNames ==> r.value[k] == row[k]
    ensures r.Ok? ==> forall k :: k in row && (forall i :: 0 <= i < |fields| ==> fields[i].name != k) ==> r.value[k] == row[k]
    ensures r.Err? ==> exists i :: 0 <= i < |fields| && fields[i].name in propertyNames &&
                          Expected(row, fields[i], dateOf, dateTimeOf) == Err(r.error) &&
                          forall j :: 0 <= j < i && fields[j].name in propertyNames ==> Expected(row, fields[j], dateOf, dateTimeOf).Ok?
  {
    r := HydrateRow(row, fields, propertyNames, Norm(dateOf, dateTimeOf));
  }
}
