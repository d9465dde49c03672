/** The code of an expression as a function of its address; jump targets are final addresses or the caller's label. */
module ExprGen {
  import opened ExprValue
  import opened VdbeMachine

  function Ins(o: Opcode, p1: int, p2: int): Op {
    Op(o, p1, p2, NoText)
  }

  function Flag(b: bool): int {
    if b then 1 else 0
  }

  // ---------------------------------------------------------------- sizes

  /** Instructions in the code of an expression's value. */
  function Size(e: Expr): nat
    decreases e
  {
    match e
    case Arith(_, l, r) => Size(l) + Size(r) + 1
    case Compare(_, l, r) => Size(l) + Size(r) + 1
    case And(l, r) => Size(l) + Size(r) + 1
    case Or(l, r) => Size(l) + Size(r) + 1
    case Not(l) => Size(l) + 1
    case IsNull(l) => Size(l) + 3
    case NotNull(l) => Size(l) + 3
    case In(l, _) => Size(l) + 7
    case Between(x, lo, hi) => Size(x) + Size(lo) + Size(hi) + 5
    case CaseOf(b, ws) => Size(b) + SizeWhens(ws, true)
    case CaseWhen(ws) => SizeWhens(ws, false)
    case _ => 1
  }

  function SizeWhens(ws: Whens, ofBase: bool): nat
    decreases ws
  {
    match ws
    case Else(els) => Flag(ofBase) + Size(els)
    case When(w, t, rest) => Size(w) + (if ofBase then 3 else 1) + Size(t) + 1 + SizeWhens(rest, ofBase)
  }

  lemma {:induction false} SizePositive(e: Expr)
    ensures Size(e) >= 1
    decreases e
  {
    match e
    case CaseOf(b, ws) => SizePositive(b);
    case CaseWhen(ws) => WhensPositive(ws);
    case _ =>
  }

  lemma {:induction false} WhensPositive(ws: Whens)
    ensures SizeWhens(ws, false) >= 1
    decreases ws
  {
    match ws
    case Else(els) => SizePositive(els);
    case When(w, t, rest) =>
  }

  /** Instructions in the code of a jump on an expression, and of a jump on its negation. */
  function SizeTrue(e: Expr): nat
    decreases e
  {
    match e
    case And(l, r) => SizeFalse(l) + SizeTrue(r)
    case Or(l, r) => SizeTrue(l) + SizeTrue(r)
    case Not(l) => SizeFalse(l)
    case Compare(_, l, r) => Size(l) + Size(r) + 1
    case IsNull(l) => Size(l) + 1
    case NotNull(l) => Size(l) + 1
    case In(l, _) => Size(l) + 4
    case Between(x, lo, hi) => Size(x) + Size(lo) + Size(hi) + 5
    case _ => Size(e) + 1
  }

  function SizeFalse(e: Expr): nat
    decreases e
  {
    match e
    case And(l, r) => SizeFalse(l) + SizeFalse(r)
    case Or(l, r) => SizeTrue(l) + SizeFalse(r)
    case Not(l) => SizeTrue(l)
    case Compare(_, l, r) => Size(l) + Size(r) + 1
    case IsNull(l) => Size(l) + 1
    case NotNull(l) => Size(l) + 1
    case In(l, _) => Size(l) + 4
    case Between(x, lo, hi) => Size(x) + Size(lo) + Size(hi) + 5
    case _ => Size(e) + 1
  }

  lemma {:induction false} JumpsPositive(e: Expr)
    ensures SizeTrue(e) >= 1 && SizeFalse(e) >= 1
    decreases e
  {
    match e
    case And(l, r) => JumpsPositive(l); JumpsPositive(r);
    case Or(l, r) => JumpsPositive(l); JumpsPositive(r);
    case Not(l) => JumpsPositive(l);
    case _ =>
  }

  // ---------------------------------------------------------------- code of a value

  function Code(ff: int, e: Expr, at: int): (c: seq<Op>)
    ensures |c| == Size(e)
    decreases e, 0
  {
    match e
    case Column(t, i, _) => [if i >= 0 then Ins(OP_Column, t, i) else Ins(OP_Recno, t, 0)]
    case Integer(n, z) => [Op(OP_Integer, n, 0, P3(z))]
    case Float(z) => [Op(OP_String, 0, 0, P3(z))]
    case Str(z) => [Op(OP_String, 0, 0, P3(z))]
    case NullLiteral => [Ins(OP_String, 0, 0)]
    case Variable(k) => [Ins(OP_Variable, k, 0)]
    case Arith(op, l, r) => Code(ff, l, at) + Code(ff, r, at + Size(l)) + [Ins(OP_Arith(op), 0, 0)]
    case Compare(op, l, r) => Code(ff, l, at) + Code(ff, r, at + Size(l)) + [Ins(OP_Cmp(TextCompare(ff, e), op), 0, 0)]
    case And(l, r) => Code(ff, l, at) + Code(ff, r, at + Size(l)) + [Ins(OP_And, 0, 0)]
    case Or(l, r) => Code(ff, l, at) + Code(ff, r, at + Size(l)) + [Ins(OP_Or, 0, 0)]
    case Not(l) => Code(ff, l, at) + [Ins(OP_Not, 0, 0)]
    case IsNull(l) => CodeNullTest(ff, l, at, OP_IsNull)
    case NotNull(l) => CodeNullTest(ff, l, at, OP_NotNull)
    case In(l, s) => CodeIn(ff, l, s, at)
    case Between(x, lo, hi) =>
      Code(ff, x, at) + [Ins(OP_Dup, 0, 0)] + Code(ff, lo, at + Size(x) + 1)
      + [Ins(OP_Cmp(false, Ge), 0, 0), Ins(OP_Pull, 1, 0)] + Code(ff, hi, at + Size(x) + Size(lo) + 3)
      + [Ins(OP_Cmp(false, Le), 0, 0), Ins(OP_And, 0, 0)]
    case CaseOf(b, ws) => Code(ff, b, at) + CodeWhens(ff, ws, at + Size(b), at + Size(e), true)
    case CaseWhen(ws) => CodeWhens(ff, ws, at, at + Size(e), false)
  }

  function CodeNullTest(ff: int, l: Expr, at: int, op: Opcode): (c: seq<Op>)
    ensures |c| == Size(l) + 3
    decreases l, 1
  {
    [Ins(OP_Integer, 1, 0)] + Code(ff, l, at + 1) + [Ins(op, 1, at + Size(l) + 3), Ins(OP_AddImm, -1, 0)]
  }

  function CodeIn(ff: int, l: Expr, s: int, at: int): (c: seq<Op>)
    ensures |c| == Size(l) + 7
    decreases l, 1
  {
    var a := at + 1 + Size(l);
    [Ins(OP_Integer, 1, 0)] + Code(ff, l, at + 1)
    + [Ins(OP_NotNull, -1, a + 4), Ins(OP_Pop, 2, 0), Ins(OP_String, 0, 0), Ins(OP_Goto, 0, a + 6),
       Ins(OP_SetFound, s, a + 6), Ins(OP_AddImm, -1, 0)]
  }

  /** The WHENs from address at on; a result jumps to end. */
  function CodeWhens(ff: int, ws: Whens, at: int, end: int, ofBase: bool): (c: seq<Op>)
    ensures |c| == SizeWhens(ws, ofBase)
    decreases ws, 0
  {
    match ws
    case Else(els) => (if ofBase then [Ins(OP_Pop, 1, 0)] else []) + Code(ff, els, at + Flag(ofBase))
    case When(w, t, rest) =>
      var a := at + Size(w) + if ofBase then 3 else 1;
      var next := a + Size(t) + 1;
      Code(ff, w, at)
      + (if ofBase then [Ins(OP_Dup, 1, 1), Ins(OP_Cmp(false, Ne), 1, next), Ins(OP_Pop, 1, 0)] else [Ins(OP_IfNot, 1, next)])
      + Code(ff, t, a) + [Ins(OP_Goto, 0, end)] + CodeWhens(ff, rest, next, end, ofBase)
  }

  // ---------------------------------------------------------------- code of a jump

  /** Jump to dest if the expression is true, or unknown and jumpIfNull is set. */
  function CodeTrue(ff: int, e: Expr, at: int, dest: int, jumpIfNull: bool): seq<Op>
    decreases e
  {
    match e
    case And(l, r) =>
      CodeFalse(ff, l, at, at + SizeTrue(e), !jumpIfNull) + CodeTrue(ff, r, at + SizeFalse(l), dest, jumpIfNull)
    case Or(l, r) => CodeTrue(ff, l, at, dest, jumpIfNull) + CodeTrue(ff, r, at + SizeTrue(l), dest, jumpIfNull)
    case Not(l) => CodeFalse(ff, l, at, dest, jumpIfNull)
    case Compare(op, l, r) =>
      Code(ff, l, at) + Code(ff, r, at + Size(l)) + [Ins(OP_Cmp(TextCompare(ff, e), op), Flag(jumpIfNull), dest)]
    case IsNull(l) => Code(ff, l, at) + [Ins(OP_IsNull, 1, dest)]
    case NotNull(l) => Code(ff, l, at) + [Ins(OP_NotNull, 1, dest)]
    case In(l, s) => CodeInJump(ff, l, at, Ins(OP_SetFound, s, dest), dest, jumpIfNull)
    case Between(x, lo, hi) => CodeBetweenTrue(ff, x, lo, hi, at, dest, jumpIfNull)
    case _ => Code(ff, e, at) + [Ins(OP_If, Flag(jumpIfNull), dest)]
  }

  function CodeInJump(ff: int, l: Expr, at: int, found: Op, dest: int, jumpIfNull: bool): (c: seq<Op>)
    ensures |c| == Size(l) + 4
  {
    var a := at + Size(l);
    Code(ff, l, at)
    + [Ins(OP_NotNull, -1, a + 3), Ins(OP_Pop, 1, 0), Ins(OP_Goto, 0, if jumpIfNull then dest else a + 4), found]
  }

  function CodeBetweenTrue(ff: int, x: Expr, lo: Expr, hi: Expr, at: int, dest: int, jumpIfNull: bool): (c: seq<Op>)
    ensures |c| == Size(x) + Size(lo) + Size(hi) + 5
  {
    var a := at + Size(x) + 1 + Size(lo);
    Code(ff, x, at) + [Ins(OP_Dup, 0, 0)] + Code(ff, lo, at + Size(x) + 1)
    + [Ins(OP_Cmp(false, Lt), Flag(!jumpIfNull), a + Size(hi) + 3)] + Code(ff, hi, a + 1)
    + [Ins(OP_Cmp(false, Le), Flag(jumpIfNull), dest), Ins(OP_Integer, 0, 0), Ins(OP_Pop, 1, 0)]
  }

  /** Jump to dest if the expression is false, or unknown and jumpIfNull is set. */
  function CodeFalse(ff: int, e: Expr, at: int, dest: int, jumpIfNull: bool): seq<Op>
    decreases e
  {
    match e
    case And(l, r) => CodeFalse(ff, l, at, dest, jumpIfNull) + CodeFalse(ff, r, at + SizeFalse(l), dest, jumpIfNull)
    case Or(l, r) =>
      CodeTrue(ff, l, at, at + SizeFalse(e), !jumpIfNull) + CodeFalse(ff, r, at + SizeTrue(l), dest, jumpIfNull)
    case Not(l) => CodeTrue(ff, l, at, dest, jumpIfNull)
    case Compare(op, l, r) =>
      Code(ff, l, at) + Code(ff, r, at + Size(l)) + [Ins(OP_Cmp(TextCompare(ff, e), Negated(op)), Flag(jumpIfNull), dest)]
    case IsNull(l) => Code(ff, l, at) + [Ins(OP_NotNull, 1, dest)]
    case NotNull(l) => Code(ff, l, at) + [Ins(OP_IsNull, 1, dest)]
    case In(l, s) => CodeInJump(ff, l, at, Ins(OP_SetNotFound, s, dest), dest, jumpIfNull)
    case Between(x, lo, hi) => CodeBetweenFalse(ff, x, lo, hi, at, dest, jumpIfNull)
    case _ => Code(ff, e, at) + [Ins(OP_IfNot, Flag(jumpIfNull), dest)]
  }

  function CodeBetweenFalse(ff: int, x: Expr, lo: Expr, hi: Expr, at: int, dest: int, jumpIfNull: bool): (c: seq<Op>)
    ensures |c| == Size(x) + Size(lo) + Size(hi) + 5
  {
    var a := at + Size(x) + 1 + Size(lo);
    Code(ff, x, at) + [Ins(OP_Dup, 0, 0)] + Code(ff, lo, at + Size(x) + 1)
    + [Ins(OP_Cmp(false, Ge), Flag(!jumpIfNull), a + 3), Ins(OP_Pop, 1, 0), Ins(OP_Goto, 0, dest)] + Code(ff, hi, a + 3)
    + [Ins(OP_Cmp(false, Gt), Flag(jumpIfNull), dest)]
  }

  /** The length of a jump's code does not depend on where it is or where it goes. */
  lemma {:induction false} TrueSize(ff: int, e: Expr, at: int, dest: int, jumpIfNull: bool)
    ensures |CodeTrue(ff, e, at, dest, jumpIfNull)| == SizeTrue(e)
    decreases e
  {
    match e
    case And(l, r) =>
      FalseSize(ff, l, at, at + SizeTrue(e), !jumpIfNull);
      TrueSize(ff, r, at + SizeFalse(l), dest, jumpIfNull);
    case Or(l, r) =>
      TrueSize(ff, l, at, dest, jumpIfNull);
      TrueSize(ff, r, at + SizeTrue(l), dest, jumpIfNull);
    case Not(l) => FalseSize(ff, l, at, dest, jumpIfNull);
    case _ =>
  }

  lemma {:induction false} FalseSize(ff: int, e: Expr, at: int, dest: int, jumpIfNull: bool)
    ensures |CodeFalse(ff, e, at, dest, jumpIfNull)| == SizeFalse(e)
    decreases e
  {
    match e
    case And(l, r) =>
      FalseSize(ff, l, at, dest, jumpIfNull);
      FalseSize(ff, r, at + SizeFalse(l), dest, jumpIfNull);
    case Or(l, r) =>
      TrueSize(ff, l, at, at + SizeFalse(e), !jumpIfNull);
      FalseSize(ff, r, at + SizeTrue(l), dest, jumpIfNull);
    case Not(l) => TrueSize(ff, l, at, dest, jumpIfNull);
    case _ =>
  }
}
