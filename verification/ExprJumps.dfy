/** Conditions compiled to jumps: they jump exactly when section 8.12 of SQL-92 says, and leave the stack alone. */
module ExprJumps {
  import opened ExprValue
  import opened VdbeMachine
  import opened ExprGen
  import opened ExprCorrect

  /** Where a condition goes that jumps on this truth value, and on NULL if jumpIfNull is set. */
  function Goes(b: Bool3, on: Bool3, jumpIfNull: bool, dest: int, next: int): int {
    if b == on || (b == Unknown && jumpIfNull) then dest else next
  }

  ghost predicate JumpsOnTrue(M: Machine, ff: int, prog: seq<Op>, e: Expr, at: int, dest: int, jumpIfNull: bool, s: Stack) {
    Leads(M, prog, State(at, s), State(Goes(Truth3(M, ff, e), True, jumpIfNull, dest, at + SizeTrue(e)), s))
  }

  ghost predicate JumpsOnFalse(M: Machine, ff: int, prog: seq<Op>, e: Expr, at: int, dest: int, jumpIfNull: bool, s: Stack) {
    Leads(M, prog, State(at, s), State(Goes(Truth3(M, ff, e), False, jumpIfNull, dest, at + SizeFalse(e)), s))
  }

  /** sqliteExprIfTrue's code jumps exactly when the expression is true, or NULL with jumpIfNull set. */
  lemma {:induction false} TrueRuns(M: Machine, ff: int, prog: seq<Op>, e: Expr, at: int, dest: int, jumpIfNull: bool, s: Stack)
    requires Has(prog, at, CodeTrue(ff, e, at, dest, jumpIfNull)) && dest > 0
    ensures JumpsOnTrue(M, ff, prog, e, at, dest, jumpIfNull, s)
    decreases e, 1
  {
    match e
    case And(_, _) => AndTrue(M, ff, prog, e, at, dest, jumpIfNull, s);
    case Or(_, _) => OrTrue(M, ff, prog, e, at, dest, jumpIfNull, s);
    case Not(_) => NotTrue(M, ff, prog, e, at, dest, jumpIfNull, s);
    case Between(_, _, _) => BetweenTrue(M, ff, prog, e, at, dest, jumpIfNull, s);
    case Compare(_, _, _) => CompareTrue(M, ff, prog, e, at, dest, jumpIfNull, s);
    case IsNull(_) => IsNullTrue(M, ff, prog, e, at, dest, jumpIfNull, s);
    case NotNull(_) => NotNullTrue(M, ff, prog, e, at, dest, jumpIfNull, s);
    case In(_, _) => InTrue(M, ff, prog, e, at, dest, jumpIfNull, s);
    case _ => ValueTrue(M, ff, prog, e, at, dest, jumpIfNull, s);
  }

  /** sqliteExprIfFalse's code jumps exactly when the expression is false, or NULL with jumpIfNull set. */
  lemma {:induction false} FalseRuns(M: Machine, ff: int, prog: seq<Op>, e: Expr, at: int, dest: int, jumpIfNull: bool, s: Stack)
    requires Has(prog, at, CodeFalse(ff, e, at, dest, jumpIfNull)) && dest > 0
    ensures JumpsOnFalse(M, ff, prog, e, at, dest, jumpIfNull, s)
    decreases e, 1
  {
    match e
    case And(_, _) => AndFalse(M, ff, prog, e, at, dest, jumpIfNull, s);
    case Or(_, _) => OrFalse(M, ff, prog, e, at, dest, jumpIfNull, s);
    case Not(_) => NotFalse(M, ff, prog, e, at, dest, jumpIfNull, s);
    case Between(_, _, _) => BetweenFalse(M, ff, prog, e, at, dest, jumpIfNull, s);
    case Compare(_, _, _) => CompareFalse(M, ff, prog, e, at, dest, jumpIfNull, s);
    case IsNull(_) => IsNullFalse(M, ff, prog, e, at, dest, jumpIfNull, s);
    case NotNull(_) => NotNullFalse(M, ff, prog, e, at, dest, jumpIfNull, s);
    case In(_, _) => InFalse(M, ff, prog, e, at, dest, jumpIfNull, s);
    case _ => ValueFalse(M, ff, prog, e, at, dest, jumpIfNull, s);
  }

  lemma {:induction false} NotTrue(M: Machine, ff: int, prog: seq<Op>, e: Expr, at: int, dest: int, jumpIfNull: bool, s: Stack)
    requires e.Not? && Has(prog, at, CodeTrue(ff, e, at, dest, jumpIfNull)) && dest > 0
    ensures JumpsOnTrue(M, ff, prog, e, at, dest, jumpIfNull, s)
    decreases e, 0
  {
    FalseRuns(M, ff, prog, e.left, at, dest, jumpIfNull, s);
    BoolValueTruth(M, Not3(Truth3(M, ff, e.left)));
  }

  lemma {:induction false} NotFalse(M: Machine, ff: int, prog: seq<Op>, e: Expr, at: int, dest: int, jumpIfNull: bool, s: Stack)
    requires e.Not? && Has(prog, at, CodeFalse(ff, e, at, dest, jumpIfNull)) && dest > 0
    ensures JumpsOnFalse(M, ff, prog, e, at, dest, jumpIfNull, s)
    decreases e, 0
  {
    TrueRuns(M, ff, prog, e.left, at, dest, jumpIfNull, s);
    BoolValueTruth(M, Not3(Truth3(M, ff, e.left)));
  }

  /** Expressions with no jump of their own: the value is computed and tested. */
  predicate IsPlain(e: Expr) {
    !e.And? && !e.Or? && !e.Not? && !e.Between? && !e.Compare? && !e.IsNull? && !e.NotNull? && !e.In?
  }

  lemma CompareTrue(M: Machine, ff: int, prog: seq<Op>, e: Expr, at: int, dest: int, jumpIfNull: bool, s: Stack)
    requires e.Compare? && Has(prog, at, CodeTrue(ff, e, at, dest, jumpIfNull)) && dest > 0
    ensures JumpsOnTrue(M, ff, prog, e, at, dest, jumpIfNull, s)
  {
    CompareRuns(M, ff, prog, e, at, e.cop, dest, jumpIfNull, s);
    BoolValueTruth(M, Comparison(M, ff, e, e.cop));
  }

  lemma IsNullTrue(M: Machine, ff: int, prog: seq<Op>, e: Expr, at: int, dest: int, jumpIfNull: bool, s: Stack)
    requires e.IsNull? && Has(prog, at, CodeTrue(ff, e, at, dest, jumpIfNull)) && dest > 0
    ensures JumpsOnTrue(M, ff, prog, e, at, dest, jumpIfNull, s)
  {
    NullJump(M, ff, prog, e.left, at, OP_IsNull, dest, s);
  }

  lemma NotNullTrue(M: Machine, ff: int, prog: seq<Op>, e: Expr, at: int, dest: int, jumpIfNull: bool, s: Stack)
    requires e.NotNull? && Has(prog, at, CodeTrue(ff, e, at, dest, jumpIfNull)) && dest > 0
    ensures JumpsOnTrue(M, ff, prog, e, at, dest, jumpIfNull, s)
  {
    NullJump(M, ff, prog, e.left, at, OP_NotNull, dest, s);
  }

  lemma InTrue(M: Machine, ff: int, prog: seq<Op>, e: Expr, at: int, dest: int, jumpIfNull: bool, s: Stack)
    requires e.In? && Has(prog, at, CodeTrue(ff, e, at, dest, jumpIfNull)) && dest > 0
    ensures JumpsOnTrue(M, ff, prog, e, at, dest, jumpIfNull, s)
  {
    InJumps(M, ff, prog, e.left, e.iSet, at, true, dest, jumpIfNull, s);
  }

  lemma ValueTrue(M: Machine, ff: int, prog: seq<Op>, e: Expr, at: int, dest: int, jumpIfNull: bool, s: Stack)
    requires IsPlain(e) && Has(prog, at, CodeTrue(ff, e, at, dest, jumpIfNull)) && dest > 0
    ensures JumpsOnTrue(M, ff, prog, e, at, dest, jumpIfNull, s)
  {
    assert CodeTrue(ff, e, at, dest, jumpIfNull) == Code(ff, e, at) + [Ins(OP_If, Flag(jumpIfNull), dest)];
    ValueJump(M, ff, prog, e, at, OP_If, dest, jumpIfNull, s);
  }

  lemma CompareFalse(M: Machine, ff: int, prog: seq<Op>, e: Expr, at: int, dest: int, jumpIfNull: bool, s: Stack)
    requires e.Compare? && Has(prog, at, CodeFalse(ff, e, at, dest, jumpIfNull)) && dest > 0
    ensures JumpsOnFalse(M, ff, prog, e, at, dest, jumpIfNull, s)
  {
    CompareRuns(M, ff, prog, e, at, Negated(e.cop), dest, jumpIfNull, s);
    NegatedIsNot(M, TextCompare(ff, e), e.cop, Eval(M, ff, e.left), Eval(M, ff, e.right));
    BoolValueTruth(M, Comparison(M, ff, e, e.cop));
  }

  lemma IsNullFalse(M: Machine, ff: int, prog: seq<Op>, e: Expr, at: int, dest: int, jumpIfNull: bool, s: Stack)
    requires e.IsNull? && Has(prog, at, CodeFalse(ff, e, at, dest, jumpIfNull)) && dest > 0
    ensures JumpsOnFalse(M, ff, prog, e, at, dest, jumpIfNull, s)
  {
    NullJump(M, ff, prog, e.left, at, OP_NotNull, dest, s);
  }

  lemma NotNullFalse(M: Machine, ff: int, prog: seq<Op>, e: Expr, at: int, dest: int, jumpIfNull: bool, s: Stack)
    requires e.NotNull? && Has(prog, at, CodeFalse(ff, e, at, dest, jumpIfNull)) && dest > 0
    ensures JumpsOnFalse(M, ff, prog, e, at, dest, jumpIfNull, s)
  {
    NullJump(M, ff, prog, e.left, at, OP_IsNull, dest, s);
  }

  lemma InFalse(M: Machine, ff: int, prog: seq<Op>, e: Expr, at: int, dest: int, jumpIfNull: bool, s: Stack)
    requires e.In? && Has(prog, at, CodeFalse(ff, e, at, dest, jumpIfNull)) && dest > 0
    ensures JumpsOnFalse(M, ff, prog, e, at, dest, jumpIfNull, s)
  {
    InJumps(M, ff, prog, e.left, e.iSet, at, false, dest, jumpIfNull, s);
  }

  lemma ValueFalse(M: Machine, ff: int, prog: seq<Op>, e: Expr, at: int, dest: int, jumpIfNull: bool, s: Stack)
    requires IsPlain(e) && Has(prog, at, CodeFalse(ff, e, at, dest, jumpIfNull)) && dest > 0
    ensures JumpsOnFalse(M, ff, prog, e, at, dest, jumpIfNull, s)
  {
    assert CodeFalse(ff, e, at, dest, jumpIfNull) == Code(ff, e, at) + [Ins(OP_IfNot, Flag(jumpIfNull), dest)];
    ValueJump(M, ff, prog, e, at, OP_IfNot, dest, jumpIfNull, s);
  }

  // ---------------------------------------------------------------- AND, OR

  lemma {:induction false} AndTrue(M: Machine, ff: int, prog: seq<Op>, e: Expr, at: int, dest: int, jumpIfNull: bool, s: Stack)
    requires e.And? && Has(prog, at, CodeTrue(ff, e, at, dest, jumpIfNull)) && dest > 0
    ensures JumpsOnTrue(M, ff, prog, e, at, dest, jumpIfNull, s)
    decreases e, 0
  {
    var l, r, mid, end := e.left, e.right, at + SizeFalse(e.left), at + SizeTrue(e);
    AndTrueParts(ff, prog, e, at, dest, jumpIfNull);
    FalseRuns(M, ff, prog, l, at, end, !jumpIfNull, s);
    TrueRuns(M, ff, prog, r, mid, dest, jumpIfNull, s);
    BoolValueTruth(M, And3(Truth3(M, ff, l), Truth3(M, ff, r)));
    Either(M, prog, State(at, s), State(mid, s), State(end, s), Goes(Truth3(M, ff, l), False, !jumpIfNull, end, mid),
           State(Goes(Truth3(M, ff, r), True, jumpIfNull, dest, end), s));
  }

  lemma AndTrueParts(ff: int, prog: seq<Op>, e: Expr, at: int, dest: int, jumpIfNull: bool)
    requires e.And? && Has(prog, at, CodeTrue(ff, e, at, dest, jumpIfNull))
    ensures at + SizeTrue(e) > 0 && Has(prog, at, CodeFalse(ff, e.left, at, at + SizeTrue(e), !jumpIfNull))
    ensures Has(prog, at + SizeFalse(e.left), CodeTrue(ff, e.right, at + SizeFalse(e.left), dest, jumpIfNull))
  {
    FalseSize(ff, e.left, at, at + SizeTrue(e), !jumpIfNull);
    JumpsPositive(e);
    Parts(prog, at, CodeFalse(ff, e.left, at, at + SizeTrue(e), !jumpIfNull),
          CodeTrue(ff, e.right, at + SizeFalse(e.left), dest, jumpIfNull));
  }

  lemma {:induction false} OrTrue(M: Machine, ff: int, prog: seq<Op>, e: Expr, at: int, dest: int, jumpIfNull: bool, s: Stack)
    requires e.Or? && Has(prog, at, CodeTrue(ff, e, at, dest, jumpIfNull)) && dest > 0
    ensures JumpsOnTrue(M, ff, prog, e, at, dest, jumpIfNull, s)
    decreases e, 0
  {
    var l, r, mid, end := e.left, e.right, at + SizeTrue(e.left), at + SizeTrue(e);
    OrTrueParts(ff, prog, e, at, dest, jumpIfNull);
    TrueRuns(M, ff, prog, l, at, dest, jumpIfNull, s);
    TrueRuns(M, ff, prog, r, mid, dest, jumpIfNull, s);
    BoolValueTruth(M, Or3(Truth3(M, ff, l), Truth3(M, ff, r)));
    Either(M, prog, State(at, s), State(mid, s), State(dest, s), Goes(Truth3(M, ff, l), True, jumpIfNull, dest, mid),
           State(Goes(Truth3(M, ff, r), True, jumpIfNull, dest, end), s));
  }

  lemma {:induction false} AndFalse(M: Machine, ff: int, prog: seq<Op>, e: Expr, at: int, dest: int, jumpIfNull: bool, s: Stack)
    requires e.And? && Has(prog, at, CodeFalse(ff, e, at, dest, jumpIfNull)) && dest > 0
    ensures JumpsOnFalse(M, ff, prog, e, at, dest, jumpIfNull, s)
    decreases e, 0
  {
    var l, r, mid, end := e.left, e.right, at + SizeFalse(e.left), at + SizeFalse(e);
    AndFalseParts(ff, prog, e, at, dest, jumpIfNull);
    FalseRuns(M, ff, prog, l, at, dest, jumpIfNull, s);
    FalseRuns(M, ff, prog, r, mid, dest, jumpIfNull, s);
    BoolValueTruth(M, And3(Truth3(M, ff, l), Truth3(M, ff, r)));
    Either(M, prog, State(at, s), State(mid, s), State(dest, s), Goes(Truth3(M, ff, l), False, jumpIfNull, dest, mid),
           State(Goes(Truth3(M, ff, r), False, jumpIfNull, dest, end), s));
  }

  lemma {:induction false} OrFalse(M: Machine, ff: int, prog: seq<Op>, e: Expr, at: int, dest: int, jumpIfNull: bool, s: Stack)
    requires e.Or? && Has(prog, at, CodeFalse(ff, e, at, dest, jumpIfNull)) && dest > 0
    ensures JumpsOnFalse(M, ff, prog, e, at, dest, jumpIfNull, s)
    decreases e, 0
  {
    var l, r, mid, end := e.left, e.right, at + SizeTrue(e.left), at + SizeFalse(e);
    OrFalseParts(ff, prog, e, at, dest, jumpIfNull);
    TrueRuns(M, ff, prog, l, at, end, !jumpIfNull, s);
    FalseRuns(M, ff, prog, r, mid, dest, jumpIfNull, s);
    BoolValueTruth(M, Or3(Truth3(M, ff, l), Truth3(M, ff, r)));
    Either(M, prog, State(at, s), State(mid, s), State(end, s), Goes(Truth3(M, ff, l), True, !jumpIfNull, end, mid),
           State(Goes(Truth3(M, ff, r), False, jumpIfNull, dest, end), s));
  }

  lemma AndFalseParts(ff: int, prog: seq<Op>, e: Expr, at: int, dest: int, jumpIfNull: bool)
    requires e.And? && Has(prog, at, CodeFalse(ff, e, at, dest, jumpIfNull))
    ensures Has(prog, at, CodeFalse(ff, e.left, at, dest, jumpIfNull))
    ensures Has(prog, at + SizeFalse(e.left), CodeFalse(ff, e.right, at + SizeFalse(e.left), dest, jumpIfNull))
  {
    FalseSize(ff, e.left, at, dest, jumpIfNull);
    Parts(prog, at, CodeFalse(ff, e.left, at, dest, jumpIfNull),
          CodeFalse(ff, e.right, at + SizeFalse(e.left), dest, jumpIfNull));
  }

  lemma OrTrueParts(ff: int, prog: seq<Op>, e: Expr, at: int, dest: int, jumpIfNull: bool)
    requires e.Or? && Has(prog, at, CodeTrue(ff, e, at, dest, jumpIfNull))
    ensures Has(prog, at, CodeTrue(ff, e.left, at, dest, jumpIfNull))
    ensures Has(prog, at + SizeTrue(e.left), CodeTrue(ff, e.right, at + SizeTrue(e.left), dest, jumpIfNull))
  {
    TrueSize(ff, e.left, at, dest, jumpIfNull);
    Parts(prog, at, CodeTrue(ff, e.left, at, dest, jumpIfNull),
          CodeTrue(ff, e.right, at + SizeTrue(e.left), dest, jumpIfNull));
  }

  lemma OrFalseParts(ff: int, prog: seq<Op>, e: Expr, at: int, dest: int, jumpIfNull: bool)
    requires e.Or? && Has(prog, at, CodeFalse(ff, e, at, dest, jumpIfNull))
    ensures at + SizeFalse(e) > 0 && Has(prog, at, CodeTrue(ff, e.left, at, at + SizeFalse(e), !jumpIfNull))
    ensures Has(prog, at + SizeTrue(e.left), CodeFalse(ff, e.right, at + SizeTrue(e.left), dest, jumpIfNull))
  {
    TrueSize(ff, e.left, at, at + SizeFalse(e), !jumpIfNull);
    JumpsPositive(e);
    Parts(prog, at, CodeTrue(ff, e.left, at, at + SizeFalse(e), !jumpIfNull),
          CodeFalse(ff, e.right, at + SizeTrue(e.left), dest, jumpIfNull));
  }

  /** The first operand decides, or control falls into the second. */
  lemma Either(M: Machine, prog: seq<Op>, s: State, mid: State, away: State, pc: int, t: State)
    requires pc == mid.pc || pc == away.pc
    requires Leads(M, prog, s, State(pc, mid.stack)) && away.stack == mid.stack
    requires Leads(M, prog, mid, t)
    ensures pc == away.pc ==> Leads(M, prog, s, away)
    ensures pc == mid.pc ==> Leads(M, prog, s, t)
  {
    if pc == mid.pc { Onward(M, prog, s, mid, t); }
  }

  // ---------------------------------------------------------------- tests of values

  function Comparison(M: Machine, ff: int, e: Expr, op: CmpOp): Bool3
    requires e.Compare?
  {
    Compare3(M, TextCompare(ff, e), op, Eval(M, ff, e.left), Eval(M, ff, e.right))
  }

  lemma CompareRuns(M: Machine, ff: int, prog: seq<Op>, e: Expr, at: int, op: CmpOp, dest: int, jumpIfNull: bool, s: Stack)
    requires e.Compare? && dest > 0
    requires Has(prog, at, Code(ff, e.left, at) + Code(ff, e.right, at + Size(e.left))
                         + [Ins(OP_Cmp(TextCompare(ff, e), op), Flag(jumpIfNull), dest)])
    ensures Leads(M, prog, State(at, s), State(Goes(Comparison(M, ff, e, op), True, jumpIfNull, dest, at + Size(e)), s))
  {
    var ins, a := Ins(OP_Cmp(TextCompare(ff, e), op), Flag(jumpIfNull), dest), at + Size(e.left) + Size(e.right);
    TwoOperands(M, ff, prog, e, at, s, ins);
    CompareFinish(M, prog, State(at, s), a, ins, TextCompare(ff, e), op, jumpIfNull, dest, Eval(M, ff, e.left), Eval(M, ff, e.right), s);
  }

  lemma CompareFinish(M: Machine, prog: seq<Op>, from: State, a: int, ins: Op, text: bool, op: CmpOp, jumpIfNull: bool, dest: int,
                      x: Value, y: Value, s: Stack)
    requires ins == Ins(OP_Cmp(text, op), Flag(jumpIfNull), dest) && dest > 0 && Has(prog, a, [ins])
    requires Leads(M, prog, from, State(a, Push(y, Push(x, s))))
    ensures Leads(M, prog, from, State(Goes(Compare3(M, text, op, x, y), True, jumpIfNull, dest, a + 1), s))
  {
    var t := State(Goes(Compare3(M, text, op, x, y), True, jumpIfNull, dest, a + 1), s);
    Does(M, prog, a, [ins], 0, Push(y, Push(x, s)), t);
    Onward(M, prog, from, State(a, Push(y, Push(x, s))), t);
  }

  lemma NullJump(M: Machine, ff: int, prog: seq<Op>, l: Expr, at: int, op: Opcode, dest: int, s: Stack)
    requires (op == OP_IsNull || op == OP_NotNull) && Has(prog, at, Code(ff, l, at) + [Ins(op, 1, dest)])
    ensures Leads(M, prog, State(at, s),
                  State(if (op == OP_IsNull) == (Eval(M, ff, l) == Null) then dest else at + Size(l) + 1, s))
  {
    var x := Eval(M, ff, l);
    Parts(prog, at, Code(ff, l, at), [Ins(op, 1, dest)]);
    CodeRuns(M, ff, prog, l, at, s);
    OneThen(M, prog, at, Code(ff, l, at), Ins(op, 1, dest), s, Push(x, s),
            State(if (op == OP_IsNull) == (x == Null) then dest else at + Size(l) + 1, s));
  }

  lemma ValueJump(M: Machine, ff: int, prog: seq<Op>, e: Expr, at: int, op: Opcode, dest: int, jumpIfNull: bool, s: Stack)
    requires (op == OP_If || op == OP_IfNot) && Has(prog, at, Code(ff, e, at) + [Ins(op, Flag(jumpIfNull), dest)])
    ensures Leads(M, prog, State(at, s),
                  State(Goes(Truth3(M, ff, e), if op == OP_If then True else False, jumpIfNull, dest, at + Size(e) + 1), s))
  {
    var x := Eval(M, ff, e);
    Parts(prog, at, Code(ff, e, at), [Ins(op, Flag(jumpIfNull), dest)]);
    CodeRuns(M, ff, prog, e, at, s);
    OneThen(M, prog, at, Code(ff, e, at), Ins(op, Flag(jumpIfNull), dest), s, Push(x, s),
            State(Goes(Truth3(M, ff, e), if op == OP_If then True else False, jumpIfNull, dest, at + Size(e) + 1), s));
  }

  // ---------------------------------------------------------------- IN

  function Look(k: int, found: bool, dest: int): Op {
    Ins(if found then OP_SetFound else OP_SetNotFound, k, dest)
  }

  lemma InJumps(M: Machine, ff: int, prog: seq<Op>, l: Expr, k: int, at: int, found: bool, dest: int, jumpIfNull: bool, s: Stack)
    requires Has(prog, at, CodeInJump(ff, l, at, Look(k, found, dest), dest, jumpIfNull))
    ensures var b := In3(M, k, Eval(M, ff, l));
      && TruthOf(M, BoolValue(b)) == b
      && Leads(M, prog, State(at, s), State(Goes(b, Truth(found), jumpIfNull, dest, at + Size(l) + 4), s))
  {
    var x, a := Eval(M, ff, l), at + Size(l);
    Parts(prog, at, Code(ff, l, at), InJumpTail(k, found, a, dest, jumpIfNull));
    CodeRuns(M, ff, prog, l, at, s);
    BoolValueTruth(M, In3(M, k, x));
    InJumpEnds(M, prog, k, found, a, dest, jumpIfNull, x, s);
    Onward(M, prog, State(at, s), State(a, Push(x, s)), State(Goes(In3(M, k, x), Truth(found), jumpIfNull, dest, a + 4), s));
  }

  function InJumpTail(k: int, found: bool, a: int, dest: int, jumpIfNull: bool): seq<Op> {
    [Ins(OP_NotNull, -1, a + 3), Ins(OP_Pop, 1, 0), Ins(OP_Goto, 0, if jumpIfNull then dest else a + 4), Look(k, found, dest)]
  }

  lemma InJumpEnds(M: Machine, prog: seq<Op>, k: int, found: bool, a: int, dest: int, jumpIfNull: bool, x: Value, s: Stack)
    requires Has(prog, a, InJumpTail(k, found, a, dest, jumpIfNull))
    ensures Leads(M, prog, State(a, Push(x, s)), State(Goes(In3(M, k, x), Truth(found), jumpIfNull, dest, a + 4), s))
  {
    var c := InJumpTail(k, found, a, dest, jumpIfNull);
    var t := State(Goes(In3(M, k, x), Truth(found), jumpIfNull, dest, a + 4), s);
    if x == Null {
      Does(M, prog, a, c, 0, Push(x, s), State(a + 1, Push(x, s)));
      PopOne(M, prog, a, c, 1, x, s);
      Does(M, prog, a, c, 2, s, t);
      Chain(M, prog, State(a, Push(x, s)), State(a + 1, Push(x, s)), State(a + 2, s), t);
    } else {
      Does(M, prog, a, c, 0, Push(x, s), State(a + 3, Push(x, s)));
      Does(M, prog, a, c, 3, Push(x, s), t);
      Onward(M, prog, State(a, Push(x, s)), State(a + 3, Push(x, s)), t);
    }
  }

  // ---------------------------------------------------------------- BETWEEN

  /** A comparison that jumps. */
  lemma CmpJump(M: Machine, prog: seq<Op>, a: int, code: seq<Op>, i: nat, op: CmpOp, jumpIfNull: bool, dest: int, y: Value, x: Value, s: Stack)
    requires Has(prog, a, code) && i < |code| && code[i] == Ins(OP_Cmp(false, op), Flag(jumpIfNull), dest) && dest > 0
    ensures Leads(M, prog, State(a + i, Push(y, Push(x, s))),
                  State(Goes(Compare3(M, false, op, x, y), True, jumpIfNull, dest, a + i + 1), s))
  {
    Does(M, prog, a, code, i, Push(y, Push(x, s)), State(Goes(Compare3(M, false, op, x, y), True, jumpIfNull, dest, a + i + 1), s));
  }

  lemma BetweenTrue(M: Machine, ff: int, prog: seq<Op>, e: Expr, at: int, dest: int, jumpIfNull: bool, s: Stack)
    requires e.Between? && Has(prog, at, CodeTrue(ff, e, at, dest, jumpIfNull)) && dest > 0
    ensures JumpsOnTrue(M, ff, prog, e, at, dest, jumpIfNull, s)
  {
    BetweenTrueRuns(M, ff, prog, e, at, dest, jumpIfNull, s);
    BoolValueTruth(M, Between3(M, Eval(M, ff, e.left), Eval(M, ff, e.lo), Eval(M, ff, e.hi)));
  }

  lemma BetweenTrueRuns(M: Machine, ff: int, prog: seq<Op>, e: Expr, at: int, dest: int, jumpIfNull: bool, s: Stack)
    requires e.Between? && Has(prog, at, CodeBetweenTrue(ff, e.left, e.lo, e.hi, at, dest, jumpIfNull)) && dest > 0
    ensures Leads(M, prog, State(at, s),
                  State(Goes(Between3(M, Eval(M, ff, e.left), Eval(M, ff, e.lo), Eval(M, ff, e.hi)), True, jumpIfNull, dest,
                             at + Size(e.left) + 1 + Size(e.lo) + Size(e.hi) + 4), s))
  {
    var x, lo, hi := Eval(M, ff, e.left), Eval(M, ff, e.lo), Eval(M, ff, e.hi);
    var a := at + Size(e.left) + 1 + Size(e.lo);
    BetweenTrueStarts(M, ff, prog, e, at, dest, jumpIfNull, s);
    BetweenTrueTests(M, ff, prog, e, at, dest, jumpIfNull, s);
    Onward(M, prog, State(at, s), State(a, Push(lo, Push(x, Push(x, s)))),
           State(Goes(Between3(M, x, lo, hi), True, jumpIfNull, dest, a + Size(e.hi) + 4), s));
  }

  lemma BetweenTrueStarts(M: Machine, ff: int, prog: seq<Op>, e: Expr, at: int, dest: int, jumpIfNull: bool, s: Stack)
    requires e.Between? && Has(prog, at, CodeBetweenTrue(ff, e.left, e.lo, e.hi, at, dest, jumpIfNull))
    ensures var x := Eval(M, ff, e.left);
      Leads(M, prog, State(at, s),
            State(at + Size(e.left) + 1 + Size(e.lo), Push(Eval(M, ff, e.lo), Push(x, Push(x, s)))))
  {
    BetweenTrueCode(ff, prog, e.left, e.lo, e.hi, at, dest, jumpIfNull);
    BetweenHead(M, ff, prog, e, at, s);
  }

  lemma BetweenTrueTests(M: Machine, ff: int, prog: seq<Op>, e: Expr, at: int, dest: int, jumpIfNull: bool, s: Stack)
    requires e.Between? && Has(prog, at, CodeBetweenTrue(ff, e.left, e.lo, e.hi, at, dest, jumpIfNull)) && dest > 0
    ensures var a, x, lo := at + Size(e.left) + 1 + Size(e.lo), Eval(M, ff, e.left), Eval(M, ff, e.lo);
      Leads(M, prog, State(a, Push(lo, Push(x, Push(x, s)))),
            State(Goes(Between3(M, x, lo, Eval(M, ff, e.hi)), True, jumpIfNull, dest, a + Size(e.hi) + 4), s))
  {
    BetweenTrueCode(ff, prog, e.left, e.lo, e.hi, at, dest, jumpIfNull);
    BetweenTrueRest(M, ff, prog, e.hi, at + Size(e.left) + 1 + Size(e.lo), Eval(M, ff, e.left), Eval(M, ff, e.lo), dest, jumpIfNull, s);
  }

  lemma BetweenTrueCode(ff: int, prog: seq<Op>, x: Expr, lo: Expr, hi: Expr, at: int, dest: int, jumpIfNull: bool)
    requires Has(prog, at, CodeBetweenTrue(ff, x, lo, hi, at, dest, jumpIfNull))
    ensures var a := at + Size(x) + 1 + Size(lo);
      && Has(prog, at, Code(ff, x, at) + [Ins(OP_Dup, 0, 0)] + Code(ff, lo, at + Size(x) + 1))
      && Has(prog, a, [Ins(OP_Cmp(false, Lt), Flag(!jumpIfNull), a + Size(hi) + 3)])
      && Has(prog, a + 1, Code(ff, hi, a + 1)) && Has(prog, a + 1 + Size(hi), BetweenTrueEnd(dest, jumpIfNull))
  {
    var a := at + Size(x) + 1 + Size(lo);
    FourPieces(prog, at, a, a + 1, a + 1 + Size(hi), Code(ff, x, at) + [Ins(OP_Dup, 0, 0)] + Code(ff, lo, at + Size(x) + 1),
               [Ins(OP_Cmp(false, Lt), Flag(!jumpIfNull), a + Size(hi) + 3)], Code(ff, hi, a + 1),
               BetweenTrueEnd(dest, jumpIfNull));
  }

  lemma FourPieces(prog: seq<Op>, at: int, a: int, b: int, d: int, head: seq<Op>, first: seq<Op>, h: seq<Op>, end: seq<Op>)
    requires Has(prog, at, head + first + h + end) && a == at + |head| && b == a + |first| && d == b + |h|
    ensures Has(prog, at, head) && Has(prog, a, first) && Has(prog, b, h) && Has(prog, d, end)
  {
    FourParts(prog, at, head, first, h, end);
  }

  lemma BetweenTrueRest(M: Machine, ff: int, prog: seq<Op>, e: Expr, a: int, x: Value, lo: Value, dest: int, jumpIfNull: bool, s: Stack)
    requires a >= 0 && dest > 0 && Has(prog, a, [Ins(OP_Cmp(false, Lt), Flag(!jumpIfNull), a + Size(e) + 3)])
    requires Has(prog, a + 1, Code(ff, e, a + 1)) && Has(prog, a + 1 + Size(e), BetweenTrueEnd(dest, jumpIfNull))
    ensures Leads(M, prog, State(a, Push(lo, Push(x, Push(x, s)))),
                  State(Goes(Between3(M, x, lo, Eval(M, ff, e)), True, jumpIfNull, dest, a + Size(e) + 4), s))
  {
    var hi, pop := Eval(M, ff, e), a + Size(e) + 3;
    BelowLo(M, prog, a, pop, x, lo, jumpIfNull, s);
    CodeRuns(M, ff, prog, e, a + 1, Push(x, s));
    BetweenTrueEnds(M, prog, a, pop - 2, x, lo, hi, dest, jumpIfNull, s);
  }

  lemma BelowLo(M: Machine, prog: seq<Op>, a: int, pop: int, x: Value, lo: Value, jumpIfNull: bool, s: Stack)
    requires a >= 0 && pop > 0 && Has(prog, a, [Ins(OP_Cmp(false, Lt), Flag(!jumpIfNull), pop)])
    ensures Leads(M, prog, State(a, Push(lo, Push(x, Push(x, s)))),
                  State(Goes(Compare3(M, false, Lt, x, lo), True, !jumpIfNull, pop, a + 1), Push(x, s)))
  {
    CmpJump(M, prog, a, [Ins(OP_Cmp(false, Lt), Flag(!jumpIfNull), pop)], 0, Lt, !jumpIfNull, pop, lo, x, Push(x, s));
  }

  function BetweenTrueEnd(dest: int, jumpIfNull: bool): seq<Op> {
    [Ins(OP_Cmp(false, Le), Flag(jumpIfNull), dest), Ins(OP_Integer, 0, 0), Ins(OP_Pop, 1, 0)]
  }

  /** Below lo: pop x and fall through; else compare with hi, and fall through over a dummy value. */
  lemma BetweenTrueEnds(M: Machine, prog: seq<Op>, a: int, b: int, x: Value, lo: Value, hi: Value, dest: int, jumpIfNull: bool, s: Stack)
    requires Has(prog, b, BetweenTrueEnd(dest, jumpIfNull)) && dest > 0
    requires Leads(M, prog, State(a, Push(lo, Push(x, Push(x, s)))),
                   State(Goes(Compare3(M, false, Lt, x, lo), True, !jumpIfNull, b + 2, a + 1), Push(x, s)))
    requires Leads(M, prog, State(a + 1, Push(x, s)), State(b, Push(hi, Push(x, s))))
    ensures Leads(M, prog, State(a, Push(lo, Push(x, Push(x, s)))),
                  State(Goes(Between3(M, x, lo, hi), True, jumpIfNull, dest, b + 3), s))
  {
    var c, from := BetweenTrueEnd(dest, jumpIfNull), State(a, Push(lo, Push(x, Push(x, s))));
    NegatedIsNot(M, false, Lt, x, lo);
    PopOne(M, prog, b, c, 2, x, s);
    if Goes(Compare3(M, false, Lt, x, lo), True, !jumpIfNull, 1, 0) == 1 {
      Onward(M, prog, from, State(b + 2, Push(x, s)), State(b + 3, s));
    } else {
      CmpJump(M, prog, b, c, 0, Le, jumpIfNull, dest, hi, x, s);
      var pc := Goes(Compare3(M, false, Le, x, hi), True, jumpIfNull, dest, b + 1);
      Chain(M, prog, from, State(a + 1, Push(x, s)), State(b, Push(hi, Push(x, s))), State(pc, s));
      FallThrough(M, prog, b, dest, jumpIfNull, s);
      if Goes(Compare3(M, false, Le, x, hi), True, jumpIfNull, 1, 0) == 0 {
        Onward(M, prog, from, State(b + 1, s), State(b + 3, s));
      }
    }
  }

  lemma FallThrough(M: Machine, prog: seq<Op>, b: int, dest: int, jumpIfNull: bool, s: Stack)
    requires Has(prog, b, BetweenTrueEnd(dest, jumpIfNull))
    ensures Leads(M, prog, State(b + 1, s), State(b + 3, s))
  {
    var c := BetweenTrueEnd(dest, jumpIfNull);
    Does(M, prog, b, c, 1, s, State(b + 2, Push(Num(0, ""), s)));
    PopOne(M, prog, b, c, 2, Num(0, ""), s);
    Onward(M, prog, State(b + 1, s), State(b + 2, Push(Num(0, ""), s)), State(b + 3, s));
  }

  lemma BetweenFalse(M: Machine, ff: int, prog: seq<Op>, e: Expr, at: int, dest: int, jumpIfNull: bool, s: Stack)
    requires e.Between? && Has(prog, at, CodeFalse(ff, e, at, dest, jumpIfNull)) && dest > 0
    ensures JumpsOnFalse(M, ff, prog, e, at, dest, jumpIfNull, s)
  {
    BetweenFalseRuns(M, ff, prog, e, at, dest, jumpIfNull, s);
    BoolValueTruth(M, Between3(M, Eval(M, ff, e.left), Eval(M, ff, e.lo), Eval(M, ff, e.hi)));
  }

  lemma BetweenFalseRuns(M: Machine, ff: int, prog: seq<Op>, e: Expr, at: int, dest: int, jumpIfNull: bool, s: Stack)
    requires e.Between? && Has(prog, at, CodeBetweenFalse(ff, e.left, e.lo, e.hi, at, dest, jumpIfNull)) && dest > 0
    ensures Leads(M, prog, State(at, s),
                  State(Goes(Between3(M, Eval(M, ff, e.left), Eval(M, ff, e.lo), Eval(M, ff, e.hi)), False, jumpIfNull, dest,
                             at + Size(e.left) + 1 + Size(e.lo) + Size(e.hi) + 4), s))
  {
    var x, lo, hi := Eval(M, ff, e.left), Eval(M, ff, e.lo), Eval(M, ff, e.hi);
    var a := at + Size(e.left) + 1 + Size(e.lo);
    BetweenFalseStarts(M, ff, prog, e, at, dest, jumpIfNull, s);
    BetweenFalseTests(M, ff, prog, e, at, dest, jumpIfNull, s);
    Onward(M, prog, State(at, s), State(a, Push(lo, Push(x, Push(x, s)))),
           State(Goes(Between3(M, x, lo, hi), False, jumpIfNull, dest, a + 3 + Size(e.hi) + 1), s));
  }

  lemma BetweenFalseStarts(M: Machine, ff: int, prog: seq<Op>, e: Expr, at: int, dest: int, jumpIfNull: bool, s: Stack)
    requires e.Between? && Has(prog, at, CodeBetweenFalse(ff, e.left, e.lo, e.hi, at, dest, jumpIfNull))
    ensures var x := Eval(M, ff, e.left);
      Leads(M, prog, State(at, s),
            State(at + Size(e.left) + 1 + Size(e.lo), Push(Eval(M, ff, e.lo), Push(x, Push(x, s)))))
  {
    BetweenFalseCode(ff, prog, e.left, e.lo, e.hi, at, dest, jumpIfNull);
    BetweenHead(M, ff, prog, e, at, s);
  }

  lemma BetweenFalseTests(M: Machine, ff: int, prog: seq<Op>, e: Expr, at: int, dest: int, jumpIfNull: bool, s: Stack)
    requires e.Between? && Has(prog, at, CodeBetweenFalse(ff, e.left, e.lo, e.hi, at, dest, jumpIfNull)) && dest > 0
    ensures var a, x, lo := at + Size(e.left) + 1 + Size(e.lo), Eval(M, ff, e.left), Eval(M, ff, e.lo);
      Leads(M, prog, State(a, Push(lo, Push(x, Push(x, s)))),
            State(Goes(Between3(M, x, lo, Eval(M, ff, e.hi)), False, jumpIfNull, dest, a + Size(e.hi) + 4), s))
  {
    BetweenFalseCode(ff, prog, e.left, e.lo, e.hi, at, dest, jumpIfNull);
    BetweenFalseRest(M, ff, prog, e.hi, at + Size(e.left) + 1 + Size(e.lo), Eval(M, ff, e.left), Eval(M, ff, e.lo), dest, jumpIfNull, s);
  }

  lemma BetweenFalseCode(ff: int, prog: seq<Op>, x: Expr, lo: Expr, hi: Expr, at: int, dest: int, jumpIfNull: bool)
    requires Has(prog, at, CodeBetweenFalse(ff, x, lo, hi, at, dest, jumpIfNull))
    ensures var a := at + Size(x) + 1 + Size(lo);
      && Has(prog, at, Code(ff, x, at) + [Ins(OP_Dup, 0, 0)] + Code(ff, lo, at + Size(x) + 1))
      && Has(prog, a, BetweenFalseFirst(a, dest, jumpIfNull)) && Has(prog, a + 3, Code(ff, hi, a + 3))
      && Has(prog, a + 3 + Size(hi), [Ins(OP_Cmp(false, Gt), Flag(jumpIfNull), dest)])
  {
    var a := at + Size(x) + 1 + Size(lo);
    FourPieces(prog, at, a, a + 3, a + 3 + Size(hi), Code(ff, x, at) + [Ins(OP_Dup, 0, 0)] + Code(ff, lo, at + Size(x) + 1),
               BetweenFalseFirst(a, dest, jumpIfNull), Code(ff, hi, a + 3), [Ins(OP_Cmp(false, Gt), Flag(jumpIfNull), dest)]);
  }

  lemma BetweenFalseRest(M: Machine, ff: int, prog: seq<Op>, e: Expr, a: int, x: Value, lo: Value, dest: int, jumpIfNull: bool, s: Stack)
    requires a >= 0 && dest > 0 && Has(prog, a, BetweenFalseFirst(a, dest, jumpIfNull))
    requires Has(prog, a + 3, Code(ff, e, a + 3)) && Has(prog, a + 3 + Size(e), [Ins(OP_Cmp(false, Gt), Flag(jumpIfNull), dest)])
    ensures Leads(M, prog, State(a, Push(lo, Push(x, Push(x, s)))),
                  State(Goes(Between3(M, x, lo, Eval(M, ff, e)), False, jumpIfNull, dest, a + 3 + Size(e) + 1), s))
  {
    CmpJump(M, prog, a, BetweenFalseFirst(a, dest, jumpIfNull), 0, Ge, !jumpIfNull, a + 3, lo, x, Push(x, s));
    CodeRuns(M, ff, prog, e, a + 3, Push(x, s));
    BetweenFalseEnds(M, prog, a, a + 3 + Size(e), x, lo, Eval(M, ff, e), dest, jumpIfNull, s);
  }

  function BetweenFalseFirst(a: int, dest: int, jumpIfNull: bool): seq<Op> {
    [Ins(OP_Cmp(false, Ge), Flag(!jumpIfNull), a + 3), Ins(OP_Pop, 1, 0), Ins(OP_Goto, 0, dest)]
  }

  lemma BetweenFalseEnds(M: Machine, prog: seq<Op>, a: int, b: int, x: Value, lo: Value, hi: Value, dest: int, jumpIfNull: bool, s: Stack)
    requires Has(prog, a, BetweenFalseFirst(a, dest, jumpIfNull)) && Has(prog, b, [Ins(OP_Cmp(false, Gt), Flag(jumpIfNull), dest)])
    requires dest > 0
    requires Leads(M, prog, State(a, Push(lo, Push(x, Push(x, s)))),
                   State(Goes(Compare3(M, false, Ge, x, lo), True, !jumpIfNull, a + 3, a + 1), Push(x, s)))
    requires Leads(M, prog, State(a + 3, Push(x, s)), State(b, Push(hi, Push(x, s))))
    ensures Leads(M, prog, State(a, Push(lo, Push(x, Push(x, s)))),
                  State(Goes(Between3(M, x, lo, hi), False, jumpIfNull, dest, b + 1), s))
  {
    var c, from := BetweenFalseFirst(a, dest, jumpIfNull), State(a, Push(lo, Push(x, Push(x, s))));
    var gt := [Ins(OP_Cmp(false, Gt), Flag(jumpIfNull), dest)];
    NegatedIsNot(M, false, Gt, x, hi);
    if Goes(Compare3(M, false, Ge, x, lo), True, !jumpIfNull, 1, 0) == 1 {
      CmpJump(M, prog, b, gt, 0, Gt, jumpIfNull, dest, hi, x, s);
      Chain(M, prog, from, State(a + 3, Push(x, s)), State(b, Push(hi, Push(x, s))),
            State(Goes(Compare3(M, false, Gt, x, hi), True, jumpIfNull, dest, b + 1), s));
    } else {
      PopOne(M, prog, a, c, 1, x, s);
      Does(M, prog, a, c, 2, s, State(dest, s));
      Chain(M, prog, from, State(a + 1, Push(x, s)), State(a + 2, s), State(dest, s));
    }
  }
}
