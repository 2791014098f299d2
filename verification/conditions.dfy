/** The condition expression tree users build with Python operators on
    property references, and its rendering as a Cypher `where` fragment. Values
    are inlined through the literal renderer, not bound as parameters. */
module Conditions {
  import opened Proxies
  import opened Text
  import Utils

  /** The nine binary node classes. */
  datatype BinaryOp =
    | Equals | NotEquals | LowerThan | LowerEquals | GreaterThan | GreaterEquals
    | And | Or | Xor
  {
    predicate IsConnective() {
      And? || Or? || Xor?
    }

    /** The Cypher operator or keyword the node renders with. */
    function Symbol(): string {
      match this
      case Equals => "="
      case NotEquals => "<>"
      case LowerThan => "<"
      case LowerEquals => "<="
      case GreaterThan => ">"
      case GreaterEquals => ">="
      case And => "and"
      case Or => "or"
      case Xor => "xor"
    }
  }

  /** A condition node: a property reference (`PropertyCondition`), a wrapped
      value (`ValueCondition`), a negation (`Not`) or a binary node. */
  datatype Condition =
    | Property(name: string)
    | Value(value: Obj)
    | Not(condition: Condition)
    | Binary(op: BinaryOp, lhs: Condition, rhs: Condition)

  /** The right operand of a Python operator: a condition or any other value. */
  datatype Operand = Cond(c: Condition) | Lit(o: Obj)

  /** The operator with a space on each side. */
  function Spaced(op: BinaryOp): string {
    " " + op.Symbol() + " "
  }

  /** `~c` (`__invert__`). */
  function Invert(c: Condition): (r: Condition)
    ensures r.Not? && r.condition == c
  {
    Not(c)
  }

  /** `c == o`, `c != o`, `c < o`, `c <= o`, `c > o`, `c >= o`, `c & o`, `c | o`
      and `c ^ o`: a new node of the matching class holding `c` and the operand,
      a non-condition operand wrapped in a value leaf. */
  function Apply(op: BinaryOp, c: Condition, o: Operand): (r: Condition)
    ensures r.Binary? && r.op == op && r.lhs == c
    ensures o.Cond? ==> r.rhs == o.c
    ensures o.Lit? ==> r.rhs == Value(o.o)
  {
    Binary(op, c, match o case Cond(d) => d case Lit(x) => Value(x))
  }

  /** `str(c)`: `n.<name>` for a property, the literal for a value,
      `not (c)` for a negation, `lhs OP rhs` for a comparison and
      `(lhs) OP (rhs)` for a connective. */
  function Render(c: Condition): string {
    match c
    case Property(name) => "n." + name
    case Value(x) => Utils.CypherValue(x)
    case Not(d) => "not " + Parens(Render(d))
    case Binary(op, a, b) =>
      if op.IsConnective() then Parens(Render(a)) + Spaced(op) + Parens(Render(b))
      else Render(a) + Spaced(op) + Render(b)
  }

  /** What each node renders to, spelled out: comparisons add no parentheses,
      connectives and negation always parenthesise their operands, and a value
      leaf is exactly its literal. Through `Apply`, a non-condition operand is
      inlined as its literal (`Person.age > 3` renders `n.age > 3`), and since
      operators never change their operands, a subtree used on both sides
      renders identically in both places. */
  lemma RenderShapes(op: BinaryOp, a: Condition, b: Condition, name: string, x: Obj)
    ensures Render(Property(name)) == "n." + name
    ensures Render(Value(x)) == Utils.CypherValue(x)
    ensures Render(Not(a)) == "not (" + Render(a) + ")"
    ensures !op.IsConnective() ==> Render(Binary(op, a, b)) == Render(a) + " " + op.Symbol() + " " + Render(b)
    ensures op.IsConnective() ==> Render(Binary(op, a, b)) == "(" + Render(a) + ") " + op.Symbol() + " (" + Render(b) + ")"
    ensures !op.IsConnective() ==> Render(Apply(op, a, Lit(x))) == Render(a) + " " + op.Symbol() + " " + Utils.CypherValue(x)
    ensures !op.IsConnective() ==> Render(Apply(op, a, Cond(a))) == Render(a) + " " + op.Symbol() + " " + Render(a)
    ensures op.IsConnective() ==> Render(Apply(op, a, Cond(a))) == "(" + Render(a) + ") " + op.Symbol() + " (" + Render(a) + ")"
  {
    NegationText(a);
    if op.IsConnective() {
      ConnectiveText(op, a, b);
      ConnectiveText(op, a, a);
    } else {
      ComparisonText(op, a, b);
      ComparisonText(op, a, Value(x));
      ComparisonText(op, a, a);
    }
  }

  lemma NegationText(a: Condition)
    ensures Render(Not(a)) == "not (" + Render(a) + ")"
  {
    var x := Render(a);
    assert "not " + Parens(x) == "not (" + x + ")";
  }

  lemma ComparisonText(op: BinaryOp, a: Condition, b: Condition)
    requires !op.IsConnective()
    ensures Render(Binary(op, a, b)) == Render(a) + " " + op.Symbol() + " " + Render(b)
  {
    var x, y := Render(a), Render(b);
    assert x + Spaced(op) + y == x + " " + op.Symbol() + " " + y;
  }

  lemma ConnectiveText(op: BinaryOp, a: Condition, b: Condition)
    requires op.IsConnective()
    ensures Render(Binary(op, a, b)) == "(" + Render(a) + ") " + op.Symbol() + " (" + Render(b) + ")"
  {
    var x, y := Render(a), Render(b);
    ConnectiveShape(op, a, b);
    assert Parens(x) + Spaced(op) + Parens(y) == "(" + x + ") " + op.Symbol() + " (" + y + ")";
  }

  /** The text of a connective node, in the parts the enclosure proofs
      below reason about, and its length. */
  lemma ConnectiveShape(op: BinaryOp, a: Condition, b: Condition)
    requires op.IsConnective()
    ensures Render(Binary(op, a, b)) == Parens(Render(a)) + Spaced(op) + Parens(Render(b))
    ensures |Render(Binary(op, a, b))| == |Render(a)| + 2 + |Spaced(op)| + |Render(b)| + 2
  {
  }

  // ---------------------------------------------------------------------------
  // Property references

  /** The property names a condition refers to. */
  function PropertyNames(c: Condition): set<string> {
    match c
    case Property(name) => {name}
    case Value(_) => {}
    case Not(d) => PropertyNames(d)
    case Binary(_, a, b) => PropertyNames(a) + PropertyNames(b)
  }

  /** Every property the tree refers to appears in the rendering as `n.<name>`. */
  lemma {:induction false} RenderMentionsProperties(c: Condition, p: string)
    requires p in PropertyNames(c)
    ensures Contains(Render(c), "n." + p)
  {
    var t := "n." + p;
    match c
    case Property(name) =>
      ContainsSelf(t);
    case Value(_) =>
    case Not(d) =>
      RenderMentionsProperties(d, p);
      ParensMentions(Render(d), t);
      ContainsRight("not ", Parens(Render(d)), t);
    case Binary(op, a, b) =>
      var x, y := Render(a), Render(b);
      if op.IsConnective() {
        x, y := Parens(x), Parens(y);
      }
      assert Render(c) == x + Spaced(op) + y;
      if p in PropertyNames(a) {
        RenderMentionsProperties(a, p);
        if op.IsConnective() {
          ParensMentions(Render(a), t);
        }
        ContainsLeft(x, Spaced(op), t);
        ContainsLeft(x + Spaced(op), y, t);
      } else {
        RenderMentionsProperties(b, p);
        if op.IsConnective() {
          ParensMentions(Render(b), t);
        }
        ContainsRight(x + Spaced(op), y, t);
      }
  }

  lemma ParensMentions(s: string, t: string)
    requires Contains(s, t)
    ensures Contains(Parens(s), t)
  {
    ContainsRight("(", s, t);
    ContainsLeft("(" + s, ")", t);
  }

  // ---------------------------------------------------------------------------
  // Parenthesisation

  /** Every leaf renders to balanced text (property names never hold
      parentheses; a literal may, inside quotes). */
  predicate LeavesBalanced(c: Condition) {
    match c
    case Property(name) => Balanced("n." + name)
    case Value(x) => Balanced(Utils.CypherValue(x))
    case Not(d) => LeavesBalanced(d)
    case Binary(_, a, b) => LeavesBalanced(a) && LeavesBalanced(b)
  }

  lemma SymbolBalanced(op: BinaryOp)
    ensures Balanced(Spaced(op))
  {
    var s := Spaced(op);
    assert '(' !in s && ')' !in s;
    BalancedNoParens(s);
  }

  /** A tree whose leaves render balanced renders balanced: the parentheses
      the renderer adds always come in matching pairs. */
  lemma {:induction false} RenderBalanced(c: Condition)
    requires LeavesBalanced(c)
    ensures Balanced(Render(c))
  {
    match c
    case Property(_) =>
    case Value(_) =>
    case Not(d) =>
      RenderBalanced(d);
      ParensBalanced(Render(d));
      assert '(' !in "not " && ')' !in "not ";
      BalancedNoParens("not ");
      BalancedConcat("not ", Parens(Render(d)));
    case Binary(op, a, b) =>
      RenderBalanced(a);
      RenderBalanced(b);
      SymbolBalanced(op);
      var x, y := Render(a), Render(b);
      if op.IsConnective() {
        ParensBalanced(x);
        ParensBalanced(y);
        x, y := Parens(x), Parens(y);
      }
      assert Render(c) == x + Spaced(op) + y;
      BalancedConcat(x, Spaced(op));
      BalancedConcat(x + Spaced(op), y);
  }

  /** In `(lhs) OP (rhs)` the opening parenthesis is closed right after the
      left operand and the one before the right operand by the last
      character: each operand is enclosed on its own, so Cypher's operator
      precedence never regroups them. */
  lemma ConnectiveEnclosesOperands(op: BinaryOp, a: Condition, b: Condition)
    requires op.IsConnective()
    requires LeavesBalanced(a) && LeavesBalanced(b)
    ensures ClosesAt(Render(Binary(op, a, b)), 0, |Render(a)| + 1)
    ensures ClosesAt(Render(Binary(op, a, b)), |Render(a)| + 2 + |Spaced(op)|, |Render(Binary(op, a, b))| - 1)
  {
    var x, y := Render(a), Render(b);
    RenderBalanced(a);
    RenderBalanced(b);
    ConnectiveShape(op, a, b);
    EnclosedPair(x, Spaced(op), y, Render(Binary(op, a, b)));
  }

  /** Two balanced texts, each in parentheses, with separator text between:
      each opening parenthesis is closed by its own partner. */
  lemma EnclosedPair(x: string, sp: string, y: string, t: string)
    requires Balanced(x) && Balanced(y)
    requires t == Parens(x) + sp + Parens(y)
    ensures ClosesAt(t, 0, |x| + 1)
    ensures ClosesAt(t, |x| + 2 + |sp|, |t| - 1)
  {
    ParensBalanced(x);
    ParensBalanced(y);
    var left := Parens(x) + sp;
    ClosesAtPrefix(Parens(x), sp, 0, |x| + 1, left);
    ClosesAtPrefix(left, Parens(y), 0, |x| + 1, t);
    ClosesAtSuffix(left, Parens(y), 0, |y| + 1, t, |x| + 2 + |sp|, |t| - 1);
  }

  /** In `not (c)` the parenthesis opened after `not ` is closed by the last
      character. */
  lemma NegationEnclosesOperand(c: Condition)
    requires LeavesBalanced(c)
    ensures ClosesAt(Render(Not(c)), 4, |Render(Not(c))| - 1)
  {
    var s := Render(Not(c));
    RenderBalanced(c);
    ParensBalanced(Render(c));
    assert s == "not " + Parens(Render(c));
    ClosesAtSuffix("not ", Parens(Render(c)), 0, |Render(c)| + 1, s, 4, |s| - 1);
  }
}
