/** The property change recorder (`PropertyChangesRecorder`) that wraps each
    scalar property value of a model instance, and the descriptor
    (`PropertyChangesRecorderDescriptor`) whose get and set route attribute
    access through a per-instance map of recorders. */
module Proxies {
  import opened PyValues

  /** One recorded change. The source's `Change` class carries no data. */
  datatype Change = Change

  /** Object identity of a recorder: the instance whose descriptor created it and
      the property name. A descriptor creates at most one recorder per instance
      and name, and never replaces it. */
  datatype RecorderId = RecorderId(owner: nat, name: string)

  /** A Python value as it flows through attribute access: a plain scalar, or a
      recorder object. */
  datatype Obj = Plain(v: Scalar) | Rec(r: Recorder)

  /** A recorder: its current `value` and its `changes` list. The value is any
      Python object, so it may itself be a recorder. */
  datatype Recorder = Recorder(id: RecorderId, value: Obj, changes: seq<Change>)

  /** `PropertyChangesRecorder(value)`. */
  function NewRecorder(id: RecorderId, value: Obj): (r: Recorder)
    ensures r.id == id && r.value == value
    ensures r.changes == []
  {
    Recorder(id, value, [])
  }

  /** `repr(o)`: a recorder's `__repr__` is its value's. */
  function ObjRepr(o: Obj): string {
    match o
    case Plain(v) => Repr(v)
    case Rec(r) => ObjRepr(r.value)
  }

  /** `str(o)`: a recorder's `__str__` is its value's. */
  function ObjStr(o: Obj): string {
    match o
    case Plain(v) => Str(v)
    case Rec(r) => ObjStr(r.value)
  }

  /** The plain value at the bottom of a chain of recorders. */
  function Innermost(o: Obj): Scalar {
    match o
    case Plain(v) => v
    case Rec(r) => Innermost(r.value)
  }

  /** However deeply recorders nest, `repr` and `str` of the outer one are those
      of the plain value inside. */
  lemma {:induction false} ReprThroughRecorders(o: Obj)
    ensures ObjRepr(o) == Repr(Innermost(o))
    ensures ObjStr(o) == Str(Innermost(o))
  {
    match o
    case Plain(_) =>
    case Rec(r) => ReprThroughRecorders(r.value);
  }

  /** `a op b` where either side may be a recorder. A recorder on the left
      forwards to its in-place operator; a recorder on the right is not a
      number or a string to the builtin operators. */
  function ObjArith(op: ArithOp, a: Obj, b: Obj): (r: Result<Obj>)
    ensures a.Plain? && b.Plain? ==>
              (r.Ok? <==> Arith(op, a.v, b.v).Ok?) &&
              (r.Ok? ==> r.value == Plain(Arith(op, a.v, b.v).value))
    ensures a.Plain? && b.Rec? ==> r.Err?
    ensures r.Ok? ==> r.value.Rec? == a.Rec?
    decreases a
  {
    match a
    case Plain(x) =>
      (match b
       case Rec(_) => if x.OtherValue? then Err(OutsideModel) else Err(TypeError)
       case Plain(y) =>
         var z :- Arith(op, x, y);
         Ok(Plain(z)))
    case Rec(inner) =>
      var v :- ObjArith(op, inner.value, b);
      Ok(Rec(inner.(value := v)))
  }

  /** A recorder on the left applies the operator to its own value and
      returns itself: identity and changes are kept and the value becomes
      `value op other`, and the call fails exactly when that operation does.
      Through a chain of recorders, the plain value at the bottom is the one
      combined with a plain right operand. */
  lemma {:induction false} ObjArithThroughRecorders(op: ArithOp, a: Obj, b: Obj)
    ensures a.Rec? ==> (ObjArith(op, a, b).Ok? <==> ObjArith(op, a.r.value, b).Ok?)
    ensures a.Rec? && ObjArith(op, a, b).Ok? ==>
              ObjArith(op, a, b).value.r == a.r.(value := ObjArith(op, a.r.value, b).value)
    ensures b.Plain? ==> (ObjArith(op, a, b).Ok? <==> Arith(op, Innermost(a), b.v).Ok?)
    ensures b.Plain? && ObjArith(op, a, b).Ok? ==>
              Innermost(ObjArith(op, a, b).value) == Arith(op, Innermost(a), b.v).value
    decreases a
  {
    match a
    case Plain(_) =>
    case Rec(inner) => ObjArithThroughRecorders(op, inner.value, b);
  }

  /** `r += other`, `r -= other`, `r *= other`: the value is replaced by
      `value op other` and the same recorder, with the same changes, is
      returned. A raising operator leaves the recorder as it was. */
  function InPlace(op: ArithOp, r: Recorder, other: Obj): (res: Result<Recorder>)
    ensures res.Ok? <==> ObjArith(op, r.value, other).Ok?
    ensures res.Ok? ==> res.value.id == r.id && res.value.changes == r.changes
    ensures res.Ok? ==> res.value.value == ObjArith(op, r.value, other).value
  {
    var v :- ObjArith(op, r.value, other);
    Ok(r.(value := v))
  }

  /** On integer recorders the three operators are ordinary integer arithmetic. */
  lemma InPlaceOnIntegers(r: Recorder, n: int)
    requires r.value.Plain? && r.value.v.IntValue?
    ensures InPlace(Add, r, Plain(IntValue(n))) == Ok(r.(value := Plain(IntValue(r.value.v.i + n))))
    ensures InPlace(Sub, r, Plain(IntValue(n))) == Ok(r.(value := Plain(IntValue(r.value.v.i - n))))
    ensures InPlace(Mul, r, Plain(IntValue(n))) == Ok(r.(value := Plain(IntValue(r.value.v.i * n))))
  {
  }

  /** `clear_changes()`. */
  function ClearChanges(r: Recorder): (res: Recorder)
    ensures res.id == r.id && res.value == r.value
    ensures res.changes == []
  {
    r.(changes := [])
  }

  // ---------------------------------------------------------------------------
  // The descriptor

  /** The part of a model instance the descriptor touches: its identity and its
      `_properties_recorders` map. */
  datatype Instance = Instance(id: nat, recorders: map<string, Recorder>)

  /** A `PropertyChangesRecorderDescriptor(name)`. */
  datatype Descriptor = Descriptor(name: string)

  /** What the owner class holds under a property name: the descriptor itself,
      or a plain default value. */
  datatype ClassAttribute = DescriptorAttribute | Default(value: Scalar)

  /** `__get__`: the instance's recorder when it has one, otherwise
      `getattr(owner, name)`. That lookup yields a default the class holds
      under the name; when the class holds the descriptor itself it calls
      `__get__` again with no instance, and reading `_properties_recorders` of
      `None` raises `AttributeError`, as does a class without the name. */
  function Get(d: Descriptor, inst: Instance, owner: map<string, ClassAttribute>): (r: Result<Obj>)
    ensures d.name in inst.recorders ==> r == Ok(Rec(inst.recorders[d.name]))
    ensures d.name !in inst.recorders && d.name in owner && owner[d.name].Default? ==>
              r == Ok(Plain(owner[d.name].value))
    ensures r.Err? <==> d.name !in inst.recorders && (d.name !in owner || owner[d.name].DescriptorAttribute?)
    ensures r.Err? ==> r.error == AttributeError
  {
    if d.name in inst.recorders then Ok(Rec(inst.recorders[d.name]))
    else if d.name !in owner then Err(AttributeError)
    else
      match owner[d.name]
      case Default(v) => Ok(Plain(v))
      case DescriptorAttribute => Err(AttributeError)
  }

  /** The recorder `__set__` installs when the instance has none yet. */
  function FreshRecorder(d: Descriptor, inst: Instance, value: Obj): Recorder {
    NewRecorder(RecorderId(inst.id, d.name), value)
  }

  /** `__set__` as the source writes it: with a recorder in place, a plain value
      overwrites that recorder's value and a recorder argument is ignored;
      without one, a fresh recorder holding the argument as given is installed. */
  function SetAsWritten(d: Descriptor, inst: Instance, newValue: Obj): (r: Instance)
    ensures r.id == inst.id
    ensures r.recorders.Keys == inst.recorders.Keys + {d.name}
    ensures forall k :: k in inst.recorders && k != d.name ==> r.recorders[k] == inst.recorders[k]
    ensures d.name in inst.recorders && newValue.Plain? ==>
              r.recorders[d.name] == inst.recorders[d.name].(value := newValue)
    ensures d.name in inst.recorders && newValue.Rec? ==> r == inst
    ensures d.name !in inst.recorders ==>
              r.recorders[d.name].id == RecorderId(inst.id, d.name) &&
              r.recorders[d.name].value == newValue && r.recorders[d.name].changes == []
  {
    if d.name in inst.recorders then
      if newValue.Rec? then inst
      else inst.(recorders := inst.recorders[d.name := inst.recorders[d.name].(value := newValue)])
    else
      inst.(recorders := inst.recorders[d.name := FreshRecorder(d, inst, newValue)])
  }

  /** The current value an assignment transfers: a recorder stands for the
      value it holds. */
  function Unwrap(o: Obj): Obj {
    match o
    case Plain(_) => o
    case Rec(r) => r.value
  }

  /** `__set__` corrected so that assigning a recorder (another instance's
      property, or the result of an in-place operator) transfers the value it
      holds instead of being dropped or nested. The recorder in place keeps its
      identity and change list. */
  function Set(d: Descriptor, inst: Instance, newValue: Obj): (r: Instance)
    ensures r.id == inst.id
    ensures r.recorders.Keys == inst.recorders.Keys + {d.name}
    ensures forall k :: k in inst.recorders && k != d.name ==> r.recorders[k] == inst.recorders[k]
    ensures d.name in inst.recorders ==>
              r.recorders[d.name].id == inst.recorders[d.name].id &&
              r.recorders[d.name].changes == inst.recorders[d.name].changes
    ensures d.name !in inst.recorders ==>
              r.recorders[d.name].id == RecorderId(inst.id, d.name) && r.recorders[d.name].changes == []
  {
    var value := Unwrap(newValue);
    if d.name in inst.recorders then
      inst.(recorders := inst.recorders[d.name := inst.recorders[d.name].(value := value)])
    else
      inst.(recorders := inst.recorders[d.name := FreshRecorder(d, inst, value)])
  }

  /** Reading a property right after assigning it yields a recorder whose
      current value is the assigned value (a recorder argument standing for
      its own value), whatever the class defaults are. */
  lemma SetThenGet(d: Descriptor, inst: Instance, owner: map<string, ClassAttribute>, x: Obj)
    ensures Get(d, Set(d, inst, x), owner).Ok?
    ensures Get(d, Set(d, inst, x), owner).value.Rec?
    ensures Get(d, Set(d, inst, x), owner).value.r.value == Unwrap(x)
    ensures ObjRepr(Get(d, Set(d, inst, x), owner).value) == ObjRepr(x)
  {
  }

  /** The as-written `__set__` ignores an assignment whose right-hand side is
      another instance's recorder: `a.name = b.name` with `a.name == "A"` and
      `b.name == "B"` leaves `a.name` at `"A"`. */
  lemma ForeignRecorderAssignmentIgnored()
    ensures
      var d := Descriptor("name");
      var a := Instance(1, map["name" := Recorder(RecorderId(1, "name"), Plain(StrValue("A")), [])]);
      var bName := Recorder(RecorderId(2, "name"), Plain(StrValue("B")), []);
      && Get(d, SetAsWritten(d, a, Rec(bName)), map[]) == Ok(Rec(a.recorders["name"]))
      && ObjStr(Get(d, SetAsWritten(d, a, Rec(bName)), map[]).value) == "A"
      && ObjStr(Get(d, Set(d, a, Rec(bName)), map[]).value) == "B"
  {
  }

  /** `inst.name op= operand`: Python reads the attribute, applies the in-place
      operator (a recorder mutates itself and is returned; a plain default is
      combined into a new value) and assigns the result back. */
  function AugAssign(d: Descriptor, inst: Instance, owner: map<string, ClassAttribute>, op: ArithOp, operand: Obj): (r: Result<Instance>)
    ensures Get(d, inst, owner).Err? ==> r == Err(AttributeError)
    ensures r.Ok? ==> r.value.id == inst.id && r.value.recorders.Keys == inst.recorders.Keys + {d.name}
    ensures d.name in inst.recorders ==>
              (r.Ok? <==> InPlace(op, inst.recorders[d.name], operand).Ok?)
    ensures d.name in inst.recorders && r.Ok? ==>
              var before := inst.recorders[d.name];
              && r.value.recorders[d.name].id == before.id
              && r.value.recorders[d.name].changes == before.changes
              && r.value.recorders[d.name].value == ObjArith(op, before.value, operand).value
    ensures d.name !in inst.recorders && d.name in owner && owner[d.name].Default? ==>
              (r.Ok? <==> ObjArith(op, Plain(owner[d.name].value), operand).Ok?)
    ensures d.name !in inst.recorders && d.name in owner && owner[d.name].Default? && r.Ok? ==>
              && r.value.recorders[d.name].id == RecorderId(inst.id, d.name)
              && r.value.recorders[d.name].value == ObjArith(op, Plain(owner[d.name].value), operand).value
              && r.value.recorders[d.name].changes == []
    ensures r.Ok? ==> forall k :: k in inst.recorders && k != d.name ==> r.value.recorders[k] == inst.recorders[k]
  {
    var current :- Get(d, inst, owner);
    match current
    case Rec(rec) =>
      var updated :- InPlace(op, rec, operand);
      // the recorder object is mutated in place, then assigned to itself
      var mutated := inst.(recorders := inst.recorders[d.name := updated]);
      Ok(Set(d, mutated, Rec(updated)))
    case Plain(v) =>
      var w :- ObjArith(op, Plain(v), operand);
      Ok(Set(d, inst, w))
  }

  /** The in-place operator path gives the same instance under the as-written
      `__set__`: assigning a recorder to itself is a no-op either way, so the
      `+=` result is kept. */
  lemma AugAssignUnaffectedByFix(d: Descriptor, inst: Instance, owner: map<string, ClassAttribute>, op: ArithOp, operand: Obj)
    requires d.name in inst.recorders
    requires InPlace(op, inst.recorders[d.name], operand).Ok?
    ensures
      var updated := InPlace(op, inst.recorders[d.name], operand).value;
      var mutated := inst.(recorders := inst.recorders[d.name := updated]);
      AugAssign(d, inst, owner, op, operand) == Ok(SetAsWritten(d, mutated, Rec(updated)))
  {
    var updated := InPlace(op, inst.recorders[d.name], operand).value;
    var mutated := inst.(recorders := inst.recorders[d.name := updated]);
    assert Set(d, mutated, Rec(updated)).recorders == mutated.recorders;
  }
}
