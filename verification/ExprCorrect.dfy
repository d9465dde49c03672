/** Compiled expressions compute their values, and compiled conditions jump exactly when they should. */
module ExprCorrect {
  import opened ExprValue
  import opened VdbeMachine
  import opened Wrappers
  import opened ExprGen

  /** The program has this code at this address. */
  ghost predicate Has(prog: seq<Op>, at: int, code: seq<Op>) {
    0 <= at && at + |code| <= |prog| && prog[at..at + |code|] == code
  }

  lemma Parts(prog: seq<Op>, at: int, a: seq<Op>, b: seq<Op>)
    requires Has(prog, at, a + b)
    ensures Has(prog, at, a) && Has(prog, at + |a|, b)
  {
    var c := prog[at..at + |a| + |b|];
    assert c[..|a|] == a && c[|a|..] == b;
    assert prog[at..at + |a|] == c[..|a|];
    assert prog[at + |a|..at + |a| + |b|] == c[|a|..];
  }

  lemma At(prog: seq<Op>, at: int, code: seq<Op>, i: nat)
    requires Has(prog, at, code) && i < |code|
    ensures at + i < |prog| && prog[at + i] == code[i]
  {
    assert prog[at..at + |code|][i] == code[i];
  }

  /** One instruction of the code is executed. */
  lemma Does(M: Machine, prog: seq<Op>, at: int, code: seq<Op>, i: nat, s: Stack, t: State)
    requires Has(prog, at, code) && i < |code| && Exec(M, code[i], at + i, s) == Some(t)
    ensures Leads(M, prog, State(at + i, s), t)
  {
    At(prog, at, code, i);
    OneStep(M, prog, State(at + i, s), t);
  }

  /** One piece of code, then one instruction. */
  lemma OneThen(M: Machine, prog: seq<Op>, at: int, a: seq<Op>, op: Op, s: Stack, s1: Stack, t: State)
    requires Has(prog, at, a + [op]) && Leads(M, prog, State(at, s), State(at + |a|, s1))
    requires Exec(M, op, at + |a|, s1) == Some(t)
    ensures Leads(M, prog, State(at, s), t)
  {
    Parts(prog, at, a, [op]);
    Does(M, prog, at + |a|, [op], 0, s1, t);
    Onward(M, prog, State(at, s), State(at + |a|, s1), t);
  }

  // ---------------------------------------------------------------- values

  /** The code of an expression pushes its value and changes nothing else. */
  ghost predicate Pushes(M: Machine, ff: int, prog: seq<Op>, e: Expr, at: int, s: Stack) {
    Leads(M, prog, State(at, s), State(at + Size(e), Push(Eval(M, ff, e), s)))
  }

  lemma {:induction false} CodeRuns(M: Machine, ff: int, prog: seq<Op>, e: Expr, at: int, s: Stack)
    requires Has(prog, at, Code(ff, e, at))
    ensures Pushes(M, ff, prog, e, at, s)
    decreases e, 3
  {
    match e
    case Arith(_, l, r) => TwoRuns(M, ff, prog, e, at, s);
    case Compare(_, l, r) => TwoRuns(M, ff, prog, e, at, s);
    case And(l, r) => TwoRuns(M, ff, prog, e, at, s);
    case Or(l, r) => TwoRuns(M, ff, prog, e, at, s);
    case Not(l) => NotRuns(M, ff, prog, e, at, s);
    case IsNull(l) => NullTestRuns(M, ff, prog, e, at, s);
    case NotNull(l) => NullTestRuns(M, ff, prog, e, at, s);
    case In(l, _) => InRuns(M, ff, prog, e, at, s);
    case Between(_, _, _) => BetweenRuns(M, ff, prog, e, at, s);
    case CaseOf(_, _) => CaseRuns(M, ff, prog, e, at, s);
    case CaseWhen(ws) => WhensRun(M, ff, prog, ws, at, at + Size(e), s);
    case _ => LeafRuns(M, ff, prog, e, at, s);
  }

  /** Columns, constants and variables take one instruction. */
  lemma LeafRuns(M: Machine, ff: int, prog: seq<Op>, e: Expr, at: int, s: Stack)
    requires Has(prog, at, Code(ff, e, at)) && Size(e) == 1 == |Code(ff, e, at)|
    requires Exec(M, Code(ff, e, at)[0], at, s) == Some(State(at + 1, Push(Eval(M, ff, e), s)))
    ensures Pushes(M, ff, prog, e, at, s)
  {
    Does(M, prog, at, Code(ff, e, at), 0, s, State(at + 1, Push(Eval(M, ff, e), s)));
  }

  /** The instruction on two operands. */
  function TwoOp(ff: int, e: Expr): Op
    requires e.Arith? || e.Compare? || e.And? || e.Or?
  {
    match e
    case Arith(op, _, _) => Ins(OP_Arith(op), 0, 0)
    case Compare(op, _, _) => Ins(OP_Cmp(TextCompare(ff, e), op), 0, 0)
    case And(_, _) => Ins(OP_And, 0, 0)
    case Or(_, _) => Ins(OP_Or, 0, 0)
  }

  lemma TwoOpComputes(M: Machine, ff: int, e: Expr, pc: int, s: Stack)
    requires e.Arith? || e.Compare? || e.And? || e.Or?
    ensures Exec(M, TwoOp(ff, e), pc, Push(Eval(M, ff, e.right), Push(Eval(M, ff, e.left), s)))
         == Some(State(pc + 1, Push(Eval(M, ff, e), s)))
  {
    var x, y := Eval(M, ff, e.left), Eval(M, ff, e.right);
    LogicTables(TruthOf(M, y), TruthOf(M, x));
  }

  lemma TwoCode(ff: int, e: Expr, at: int)
    requires e.Arith? || e.Compare? || e.And? || e.Or?
    ensures Code(ff, e, at) == Code(ff, e.left, at) + Code(ff, e.right, at + Size(e.left)) + [TwoOp(ff, e)]
    ensures Size(e) == Size(e.left) + Size(e.right) + 1
  {
  }

  lemma {:induction false} TwoRuns(M: Machine, ff: int, prog: seq<Op>, e: Expr, at: int, s: Stack)
    requires (e.Arith? || e.Compare? || e.And? || e.Or?) && Has(prog, at, Code(ff, e, at))
    ensures Pushes(M, ff, prog, e, at, s)
    decreases e, 1
  {
    TwoCode(ff, e, at);
    TwoOperands(M, ff, prog, e, at, s, TwoOp(ff, e));
    TwoFinish(M, ff, prog, e, State(at, s), at + Size(e.left) + Size(e.right), s);
  }

  lemma TwoFinish(M: Machine, ff: int, prog: seq<Op>, e: Expr, from: State, a: int, s: Stack)
    requires (e.Arith? || e.Compare? || e.And? || e.Or?) && Has(prog, a, [TwoOp(ff, e)])
    requires Leads(M, prog, from, State(a, Push(Eval(M, ff, e.right), Push(Eval(M, ff, e.left), s))))
    ensures Leads(M, prog, from, State(a + 1, Push(Eval(M, ff, e), s)))
  {
    var two := Push(Eval(M, ff, e.right), Push(Eval(M, ff, e.left), s));
    TwoOpComputes(M, ff, e, a, s);
    Does(M, prog, a, [TwoOp(ff, e)], 0, two, State(a + 1, Push(Eval(M, ff, e), s)));
    Onward(M, prog, from, State(a, two), State(a + 1, Push(Eval(M, ff, e), s)));
  }

  lemma {:induction false} TwoOperands(M: Machine, ff: int, prog: seq<Op>, e: Expr, at: int, s: Stack, op: Op)
    requires e.Arith? || e.Compare? || e.And? || e.Or?
    requires Has(prog, at, Code(ff, e.left, at) + Code(ff, e.right, at + Size(e.left)) + [op])
    ensures Has(prog, at + Size(e.left) + Size(e.right), [op])
    ensures Leads(M, prog, State(at, s), State(at + Size(e.left) + Size(e.right),
                                               Push(Eval(M, ff, e.right), Push(Eval(M, ff, e.left), s))))
    decreases e, 0
  {
    var x, a, b := Eval(M, ff, e.left), Code(ff, e.left, at), Code(ff, e.right, at + Size(e.left));
    Parts(prog, at, a + b, [op]);
    Parts(prog, at, a, b);
    CodeRuns(M, ff, prog, e.left, at, s);
    CodeRuns(M, ff, prog, e.right, at + Size(e.left), Push(x, s));
    Onward(M, prog, State(at, s), State(at + Size(e.left), Push(x, s)),
           State(at + Size(e.left) + Size(e.right), Push(Eval(M, ff, e.right), Push(x, s))));
  }

  lemma {:induction false} NotRuns(M: Machine, ff: int, prog: seq<Op>, e: Expr, at: int, s: Stack)
    requires e.Not? && Has(prog, at, Code(ff, e, at))
    ensures Pushes(M, ff, prog, e, at, s)
    decreases e, 0
  {
    var a, op := Code(ff, e.left, at), Ins(OP_Not, 0, 0);
    Parts(prog, at, a, [op]);
    CodeRuns(M, ff, prog, e.left, at, s);
    OneThen(M, prog, at, a, op, s, Push(Eval(M, ff, e.left), s), State(at + Size(e), Push(Eval(M, ff, e), s)));
  }

  /** A 1 is pushed, and then the value. */
  lemma {:induction false} OneBelow(M: Machine, ff: int, prog: seq<Op>, l: Expr, at: int, s: Stack)
    requires Has(prog, at, [Ins(OP_Integer, 1, 0)] + Code(ff, l, at + 1))
    ensures Leads(M, prog, State(at, s), State(at + 1 + Size(l), Push(Eval(M, ff, l), Push(Num(1, ""), s))))
    decreases l, 4
  {
    var head, one := [Ins(OP_Integer, 1, 0)], Push(Num(1, ""), s);
    Parts(prog, at, head, Code(ff, l, at + 1));
    Does(M, prog, at, head, 0, s, State(at + 1, one));
    CodeRuns(M, ff, prog, l, at + 1, one);
    Onward(M, prog, State(at, s), State(at + 1, one), State(at + 1 + Size(l), Push(Eval(M, ff, l), one)));
  }

  /** Push 1, test, and unless the test jumped take 1 off. */
  lemma {:induction false} NullTestRuns(M: Machine, ff: int, prog: seq<Op>, e: Expr, at: int, s: Stack)
    requires (e.IsNull? || e.NotNull?) && Has(prog, at, Code(ff, e, at))
    ensures Pushes(M, ff, prog, e, at, s)
    decreases e, 0
  {
    var l := e.left;
    var op := if e.IsNull? then OP_IsNull else OP_NotNull;
    var x, a := Eval(M, ff, l), at + 1 + Size(l);
    assert Code(ff, e, at) == CodeNullTest(ff, l, at, op);
    Parts(prog, at, [Ins(OP_Integer, 1, 0)] + Code(ff, l, at + 1), [Ins(op, 1, a + 2), Ins(OP_AddImm, -1, 0)]);
    OneBelow(M, ff, prog, l, at, s);
    NullTestEnds(M, prog, a, op, x, s);
    Onward(M, prog, State(at, s), State(a, Push(x, Push(Num(1, ""), s))), State(a + 2, Push(Eval(M, ff, e), s)));
  }

  lemma NullTestEnds(M: Machine, prog: seq<Op>, a: int, op: Opcode, x: Value, s: Stack)
    requires (op == OP_IsNull || op == OP_NotNull) && Has(prog, a, [Ins(op, 1, a + 2), Ins(OP_AddImm, -1, 0)])
    ensures Leads(M, prog, State(a, Push(x, Push(Num(1, ""), s))),
                  State(a + 2, Push(BoolValue(Truth((op == OP_IsNull) == (x == Null))), s)))
  {
    var tail := [Ins(op, 1, a + 2), Ins(OP_AddImm, -1, 0)];
    var from, one := State(a, Push(x, Push(Num(1, ""), s))), Push(Num(1, ""), s);
    if (op == OP_IsNull) == (x == Null) {
      Does(M, prog, a, tail, 0, Push(x, one), State(a + 2, one));
    } else {
      Does(M, prog, a, tail, 0, Push(x, one), State(a + 1, one));
      Does(M, prog, a, tail, 1, one, State(a + 2, Push(Num(0, ""), s)));
      Onward(M, prog, from, State(a + 1, one), State(a + 2, Push(Num(0, ""), s)));
    }
  }

  lemma Chain(M: Machine, prog: seq<Op>, s: State, t: State, u: State, v: State)
    requires Leads(M, prog, s, t) && Leads(M, prog, t, u) && Leads(M, prog, u, v)
    ensures Leads(M, prog, s, v)
  {
    Onward(M, prog, s, t, u);
    Onward(M, prog, s, u, v);
  }

  /** Push 1, look the value up, and take 1 off if it was not found; NULL stays NULL. */
  lemma {:induction false} InRuns(M: Machine, ff: int, prog: seq<Op>, e: Expr, at: int, s: Stack)
    requires e.In? && Has(prog, at, Code(ff, e, at))
    ensures Pushes(M, ff, prog, e, at, s)
    decreases e, 0
  {
    var l := e.left;
    var x, a := Eval(M, ff, l), at + 1 + Size(l);
    assert Code(ff, e, at) == CodeIn(ff, l, e.iSet, at);
    Parts(prog, at, [Ins(OP_Integer, 1, 0)] + Code(ff, l, at + 1), InTail(e.iSet, a));
    OneBelow(M, ff, prog, l, at, s);
    InEnds(M, prog, a, e.iSet, x, s);
    Onward(M, prog, State(at, s), State(a, Push(x, Push(Num(1, ""), s))), State(a + 6, Push(Eval(M, ff, e), s)));
  }

  function InTail(k: int, a: int): seq<Op> {
    [Ins(OP_NotNull, -1, a + 4), Ins(OP_Pop, 2, 0), Ins(OP_String, 0, 0), Ins(OP_Goto, 0, a + 6),
     Ins(OP_SetFound, k, a + 6), Ins(OP_AddImm, -1, 0)]
  }

  lemma InEnds(M: Machine, prog: seq<Op>, a: int, k: int, x: Value, s: Stack)
    requires Has(prog, a, InTail(k, a))
    ensures Leads(M, prog, State(a, Push(x, Push(Num(1, ""), s))), State(a + 6, Push(BoolValue(In3(M, k, x)), s)))
  {
    var c, one := InTail(k, a), Push(Num(1, ""), s);
    if x == Null {
      InNull(M, prog, a, k, s);
    } else {
      Does(M, prog, a, c, 0, Push(x, one), State(a + 4, Push(x, one)));
      if M.inSet(k, x) {
        Does(M, prog, a, c, 4, Push(x, one), State(a + 6, one));
        Onward(M, prog, State(a, Push(x, one)), State(a + 4, Push(x, one)), State(a + 6, one));
      } else {
        Does(M, prog, a, c, 4, Push(x, one), State(a + 5, one));
        Does(M, prog, a, c, 5, one, State(a + 6, Push(Num(0, ""), s)));
        Chain(M, prog, State(a, Push(x, one)), State(a + 4, Push(x, one)), State(a + 5, one), State(a + 6, Push(Num(0, ""), s)));
      }
    }
  }

  lemma PopTwo(x: Value, y: Value, s: Stack)
    ensures PopN(Push(x, Push(y, s)), 2) == Some(s)
  {
    assert PopN(s, 0) == Some(s);
    assert PopN(Push(y, s), 1) == Some(s);
  }

  lemma InNull(M: Machine, prog: seq<Op>, a: int, k: int, s: Stack)
    requires Has(prog, a, InTail(k, a))
    ensures Leads(M, prog, State(a, Push(Null, Push(Num(1, ""), s))), State(a + 6, Push(Null, s)))
  {
    var c, two := InTail(k, a), Push(Null, Push(Num(1, ""), s));
    Does(M, prog, a, c, 0, two, State(a + 1, two));
    PopTwo(Null, Num(1, ""), s);
    Does(M, prog, a, c, 1, two, State(a + 2, s));
    Does(M, prog, a, c, 2, s, State(a + 3, Push(Null, s)));
    Does(M, prog, a, c, 3, Push(Null, s), State(a + 6, Push(Null, s)));
    Chain(M, prog, State(a, two), State(a + 1, two), State(a + 2, s), State(a + 3, Push(Null, s)));
    Onward(M, prog, State(a, two), State(a + 3, Push(Null, s)), State(a + 6, Push(Null, s)));
  }

  // ---------------------------------------------------------------- BETWEEN as a value

  lemma FourParts(prog: seq<Op>, at: int, head: seq<Op>, first: seq<Op>, h: seq<Op>, end: seq<Op>)
    requires Has(prog, at, head + first + h + end)
    ensures Has(prog, at, head) && Has(prog, at + |head|, first) && Has(prog, at + |head| + |first|, h)
    ensures Has(prog, at + |head| + |first| + |h|, end)
  {
    Parts(prog, at, head + first + h, end);
    Parts(prog, at, head + first, h);
    Parts(prog, at, head, first);
  }

  /** x twice and lo above it, ready for the first comparison. */
  lemma {:induction false} BetweenHead(M: Machine, ff: int, prog: seq<Op>, e: Expr, at: int, s: Stack)
    requires e.Between? && Has(prog, at, Code(ff, e.left, at) + [Ins(OP_Dup, 0, 0)] + Code(ff, e.lo, at + Size(e.left) + 1))
    ensures var v := Eval(M, ff, e.left);
      Leads(M, prog, State(at, s), State(at + Size(e.left) + 1 + Size(e.lo), Push(Eval(M, ff, e.lo), Push(v, Push(v, s)))))
    decreases e, 0
  {
    var x, lo, dup := e.left, e.lo, [Ins(OP_Dup, 0, 0)];
    var v := Eval(M, ff, x);
    Parts(prog, at, Code(ff, x, at) + dup, Code(ff, lo, at + Size(x) + 1));
    Parts(prog, at, Code(ff, x, at), dup);
    CodeRuns(M, ff, prog, x, at, s);
    Does(M, prog, at + Size(x), dup, 0, Push(v, s), State(at + Size(x) + 1, Push(v, Push(v, s))));
    CodeRuns(M, ff, prog, lo, at + Size(x) + 1, Push(v, Push(v, s)));
    Chain(M, prog, State(at, s), State(at + Size(x), Push(v, s)), State(at + Size(x) + 1, Push(v, Push(v, s))),
          State(at + Size(x) + 1 + Size(lo), Push(Eval(M, ff, lo), Push(v, Push(v, s)))));
  }

  lemma BetweenCode(ff: int, prog: seq<Op>, e: Expr, at: int)
    requires e.Between? && Has(prog, at, Code(ff, e, at))
    ensures var a := at + Size(e.left) + 1 + Size(e.lo);
      && Has(prog, at, Code(ff, e.left, at) + [Ins(OP_Dup, 0, 0)] + Code(ff, e.lo, at + Size(e.left) + 1))
      && Has(prog, a, [Ins(OP_Cmp(false, Ge), 0, 0), Ins(OP_Pull, 1, 0)]) && Has(prog, a + 2, Code(ff, e.hi, a + 2))
      && Has(prog, a + 2 + Size(e.hi), [Ins(OP_Cmp(false, Le), 0, 0), Ins(OP_And, 0, 0)])
  {
    var a := at + Size(e.left) + 1 + Size(e.lo);
    var head := Code(ff, e.left, at) + [Ins(OP_Dup, 0, 0)] + Code(ff, e.lo, at + Size(e.left) + 1);
    var mid := [Ins(OP_Cmp(false, Ge), 0, 0), Ins(OP_Pull, 1, 0)];
    FourParts(prog, at, head, mid, Code(ff, e.hi, a + 2), [Ins(OP_Cmp(false, Le), 0, 0), Ins(OP_And, 0, 0)]);
  }

  lemma {:induction false} BetweenRuns(M: Machine, ff: int, prog: seq<Op>, e: Expr, at: int, s: Stack)
    requires e.Between? && Has(prog, at, Code(ff, e, at))
    ensures Pushes(M, ff, prog, e, at, s)
    decreases e, 1
  {
    var x, lo, hi := Eval(M, ff, e.left), Eval(M, ff, e.lo), Eval(M, ff, e.hi);
    var a := at + Size(e.left) + 1 + Size(e.lo);
    BetweenCode(ff, prog, e, at);
    BetweenHead(M, ff, prog, e, at, s);
    CodeRuns(M, ff, prog, e.hi, a + 2, Push(x, Push(BoolValue(Compare3(M, false, Ge, x, lo)), s)));
    BetweenRest(M, prog, State(at, s), a, a + 2 + Size(e.hi), x, lo, hi, s);
  }

  /** From both operands of the first comparison to the result. */
  lemma BetweenRest(M: Machine, prog: seq<Op>, from: State, a: int, b: int, x: Value, lo: Value, hi: Value, s: Stack)
    requires Has(prog, a, [Ins(OP_Cmp(false, Ge), 0, 0), Ins(OP_Pull, 1, 0)])
    requires Has(prog, b, [Ins(OP_Cmp(false, Le), 0, 0), Ins(OP_And, 0, 0)])
    requires Leads(M, prog, from, State(a, Push(lo, Push(x, Push(x, s)))))
    requires var ge := BoolValue(Compare3(M, false, Ge, x, lo));
      Leads(M, prog, State(a + 2, Push(x, Push(ge, s))), State(b, Push(hi, Push(x, Push(ge, s)))))
    ensures Leads(M, prog, from, State(b + 2, Push(BoolValue(Between3(M, x, lo, hi)), s)))
  {
    var ge := BoolValue(Compare3(M, false, Ge, x, lo));
    BetweenMid(M, prog, a, x, lo, s);
    BetweenEnd(M, prog, b, x, hi, Compare3(M, false, Ge, x, lo), s);
    Chain(M, prog, from, State(a, Push(lo, Push(x, Push(x, s)))), State(a + 2, Push(x, Push(ge, s))), State(b, Push(hi, Push(x, Push(ge, s)))));
    Onward(M, prog, from, State(b, Push(hi, Push(x, Push(ge, s)))), State(b + 2, Push(BoolValue(Between3(M, x, lo, hi)), s)));
  }

  lemma BetweenMid(M: Machine, prog: seq<Op>, a: int, x: Value, lo: Value, s: Stack)
    requires Has(prog, a, [Ins(OP_Cmp(false, Ge), 0, 0), Ins(OP_Pull, 1, 0)])
    ensures Leads(M, prog, State(a, Push(lo, Push(x, Push(x, s)))), State(a + 2, Push(x, Push(BoolValue(Compare3(M, false, Ge, x, lo)), s))))
  {
    var c := [Ins(OP_Cmp(false, Ge), 0, 0), Ins(OP_Pull, 1, 0)];
    var ge := BoolValue(Compare3(M, false, Ge, x, lo));
    Does(M, prog, a, c, 0, Push(lo, Push(x, Push(x, s))), State(a + 1, Push(ge, Push(x, s))));
    var two := Push(ge, Push(x, s));
    assert Nth(two, 1) == Nth(two.below, 0) == Some(x) && Without(two, 1) == Push(ge, Without(two.below, 0)) == Push(ge, s);
    Does(M, prog, a, c, 1, two, State(a + 2, Push(x, Push(ge, s))));
    Onward(M, prog, State(a, Push(lo, Push(x, Push(x, s)))), State(a + 1, two), State(a + 2, Push(x, Push(ge, s))));
  }

  lemma BetweenEnd(M: Machine, prog: seq<Op>, a: int, x: Value, hi: Value, g: Bool3, s: Stack)
    requires Has(prog, a, [Ins(OP_Cmp(false, Le), 0, 0), Ins(OP_And, 0, 0)])
    ensures Leads(M, prog, State(a, Push(hi, Push(x, Push(BoolValue(g), s)))),
                  State(a + 2, Push(BoolValue(And3(g, Compare3(M, false, Le, x, hi))), s)))
  {
    var c := [Ins(OP_Cmp(false, Le), 0, 0), Ins(OP_And, 0, 0)];
    var l := Compare3(M, false, Le, x, hi);
    BoolValueTruth(M, g);
    BoolValueTruth(M, l);
    LogicTables(l, g);
    assert And3(l, g) == And3(g, l);
    Does(M, prog, a, c, 0, Push(hi, Push(x, Push(BoolValue(g), s))), State(a + 1, Push(BoolValue(l), Push(BoolValue(g), s))));
    Does(M, prog, a, c, 1, Push(BoolValue(l), Push(BoolValue(g), s)), State(a + 2, Push(BoolValue(And3(g, l)), s)));
    Onward(M, prog, State(a, Push(hi, Push(x, Push(BoolValue(g), s)))), State(a + 1, Push(BoolValue(l), Push(BoolValue(g), s))),
           State(a + 2, Push(BoolValue(And3(g, l)), s)));
  }

  // ---------------------------------------------------------------- CASE

  lemma {:induction false} CaseRuns(M: Machine, ff: int, prog: seq<Op>, e: Expr, at: int, s: Stack)
    requires e.CaseOf? && Has(prog, at, Code(ff, e, at))
    ensures Pushes(M, ff, prog, e, at, s)
    decreases e, 0
  {
    var b := Eval(M, ff, e.left);
    Parts(prog, at, Code(ff, e.left, at), CodeWhens(ff, e.whens, at + Size(e.left), at + Size(e), true));
    CodeRuns(M, ff, prog, e.left, at, s);
    WhensOfRun(M, ff, prog, e.whens, at + Size(e.left), at + Size(e), b, s);
    Onward(M, prog, State(at, s), State(at + Size(e.left), Push(b, s)), State(at + Size(e), Push(Eval(M, ff, e), s)));
  }

  /** A WHEN, its test, its THEN, the jump to the end, and the WHENs after it. */
  lemma WhenParts(prog: seq<Op>, at: int, w: seq<Op>, test: seq<Op>, t: seq<Op>, go: seq<Op>, rest: seq<Op>)
    requires Has(prog, at, w + test + t + go + rest)
    ensures Has(prog, at, w) && Has(prog, at + |w|, test) && Has(prog, at + |w| + |test|, t)
    ensures Has(prog, at + |w| + |test| + |t|, go) && Has(prog, at + |w| + |test| + |t| + |go|, rest)
  {
    Parts(prog, at, w + test + t + go, rest);
    Parts(prog, at, w + test + t, go);
    Parts(prog, at, w + test, t);
    Parts(prog, at, w, test);
  }

  /** A WHEN that was taken: its result goes to the end. */
  lemma Taken(M: Machine, prog: seq<Op>, s: State, u: State, pc: int, end: int, r: Stack)
    requires Leads(M, prog, s, u) && Leads(M, prog, u, State(pc, r))
    requires Has(prog, pc, [Ins(OP_Goto, 0, end)])
    ensures Leads(M, prog, s, State(end, r))
  {
    Does(M, prog, pc, [Ins(OP_Goto, 0, end)], 0, r, State(end, r));
    Chain(M, prog, s, u, State(pc, r), State(end, r));
  }

  lemma IfNotRuns(M: Machine, prog: seq<Op>, pc: int, next: int, v: Value, s: Stack)
    requires Has(prog, pc, [Ins(OP_IfNot, 1, next)])
    ensures Leads(M, prog, State(pc, Push(v, s)), State(if TruthOf(M, v) == True then pc + 1 else next, s))
  {
    Does(M, prog, pc, [Ins(OP_IfNot, 1, next)], 0, Push(v, s), State(if TruthOf(M, v) == True then pc + 1 else next, s));
  }

  /** The THEN at a, its jump to the end, and the WHENs after it. */
  ghost predicate WhenRest(ff: int, prog: seq<Op>, ws: Whens, a: int, end: int, ofBase: bool)
    requires ws.When?
  {
    var next := a + Size(ws.then_) + 1;
    && Has(prog, a, Code(ff, ws.then_, a)) && Has(prog, next - 1, [Ins(OP_Goto, 0, end)])
    && Has(prog, next, CodeWhens(ff, ws.rest, next, end, ofBase))
  }

  /** The instructions between a WHEN and its THEN. */
  function TestOrIf(ofBase: bool, next: int): seq<Op> {
    if ofBase then TestOf(next) else [Ins(OP_IfNot, 1, next)]
  }

  /** A WHEN laid out, and the WHENs after it. */
  function WhenSpelled(ff: int, ws: Whens, at: int, a: int, next: int, end: int, ofBase: bool): seq<Op>
    requires ws.When?
  {
    Code(ff, ws.test, at) + TestOrIf(ofBase, next) + Code(ff, ws.then_, a) + [Ins(OP_Goto, 0, end)]
    + CodeWhens(ff, ws.rest, next, end, ofBase)
  }

  lemma WhenIs(ff: int, ws: Whens, at: int, end: int, ofBase: bool)
    requires ws.When?
    ensures var a := at + Size(ws.test) + if ofBase then 3 else 1;
      CodeWhens(ff, ws, at, end, ofBase) == WhenSpelled(ff, ws, at, a, a + Size(ws.then_) + 1, end, ofBase)
  {
  }

  lemma WhenCode(ff: int, prog: seq<Op>, ws: Whens, at: int, a: int, next: int, end: int, ofBase: bool)
    requires ws.When? && Has(prog, at, WhenSpelled(ff, ws, at, a, next, end, ofBase))
    requires a == at + Size(ws.test) + (if ofBase then 3 else 1) && next == a + Size(ws.then_) + 1
    ensures Has(prog, at, Code(ff, ws.test, at)) && Has(prog, at + Size(ws.test), TestOrIf(ofBase, next))
    ensures WhenRest(ff, prog, ws, a, end, ofBase)
  {
    WhenPieces(prog, at, a, next, end, Code(ff, ws.test, at), TestOrIf(ofBase, next), Code(ff, ws.then_, a),
               CodeWhens(ff, ws.rest, next, end, ofBase));
  }

  lemma WhenPieces(prog: seq<Op>, at: int, a: int, next: int, end: int, w: seq<Op>, test: seq<Op>, t: seq<Op>, rest: seq<Op>)
    requires Has(prog, at, w + test + t + [Ins(OP_Goto, 0, end)] + rest) && a == at + |w| + |test| && next == a + |t| + 1
    ensures Has(prog, at, w) && Has(prog, at + |w|, test) && Has(prog, a, t) && Has(prog, next - 1, [Ins(OP_Goto, 0, end)])
    ensures Has(prog, next, rest)
  {
    WhenParts(prog, at, w, test, t, [Ins(OP_Goto, 0, end)], rest);
  }

  /** The WHEN was true: its THEN is evaluated, and the rest is jumped over. */
  lemma {:induction false} ThenRuns(M: Machine, ff: int, prog: seq<Op>, ws: Whens, from: State, a: int, end: int, ofBase: bool, s: Stack)
    requires ws.When? && WhenRest(ff, prog, ws, a, end, ofBase) && Leads(M, prog, from, State(a, s))
    ensures Leads(M, prog, from, State(end, Push(Eval(M, ff, ws.then_), s)))
    decreases ws, 0
  {
    CodeRuns(M, ff, prog, ws.then_, a, s);
    Taken(M, prog, from, State(a, s), a + Size(ws.then_), end, Push(Eval(M, ff, ws.then_), s));
  }

  lemma {:induction false} WhensRun(M: Machine, ff: int, prog: seq<Op>, ws: Whens, at: int, end: int, s: Stack)
    requires Has(prog, at, CodeWhens(ff, ws, at, end, false)) && end == at + SizeWhens(ws, false)
    ensures Leads(M, prog, State(at, s), State(end, Push(EvalWhens(M, ff, ws), s)))
    decreases ws, 2
  {
    match ws
    case Else(els) => CodeRuns(M, ff, prog, els, at, s);
    case When(_, _, _) => WhenRuns(M, ff, prog, ws, at, end, s);
  }

  lemma {:induction false} WhenRuns(M: Machine, ff: int, prog: seq<Op>, ws: Whens, at: int, end: int, s: Stack)
    requires ws.When? && Has(prog, at, CodeWhens(ff, ws, at, end, false)) && end == at + SizeWhens(ws, false)
    ensures Leads(M, prog, State(at, s), State(end, Push(EvalWhens(M, ff, ws), s)))
    decreases ws, 1
  {
    var a := at + Size(ws.test) + 1;
    var next := a + Size(ws.then_) + 1;
    WhenTested(M, ff, prog, ws, at, end, s);
    if TruthOf(M, Eval(M, ff, ws.test)) == True {
      ThenRuns(M, ff, prog, ws, State(at, s), a, end, false, s);
    } else {
      WhensRun(M, ff, prog, ws.rest, next, end, s);
      Onward(M, prog, State(at, s), State(next, s), State(end, Push(EvalWhens(M, ff, ws.rest), s)));
    }
  }

  /** Up to the outcome of the first test. */
  lemma {:induction false} WhenTested(M: Machine, ff: int, prog: seq<Op>, ws: Whens, at: int, end: int, s: Stack)
    requires ws.When? && Has(prog, at, CodeWhens(ff, ws, at, end, false))
    ensures WhenRest(ff, prog, ws, at + Size(ws.test) + 1, end, false)
    ensures var a := at + Size(ws.test) + 1;
      Leads(M, prog, State(at, s),
            State(if TruthOf(M, Eval(M, ff, ws.test)) == True then a else a + Size(ws.then_) + 1, s))
    decreases ws, 0
  {
    var a, v := at + Size(ws.test) + 1, Eval(M, ff, ws.test);
    var next := a + Size(ws.then_) + 1;
    WhenIs(ff, ws, at, end, false);
    WhenCode(ff, prog, ws, at, a, next, end, false);
    CodeRuns(M, ff, prog, ws.test, at, s);
    IfNotRuns(M, prog, at + Size(ws.test), next, v, s);
    Onward(M, prog, State(at, s), State(at + Size(ws.test), Push(v, s)), State(if TruthOf(M, v) == True then a else next, s));
  }

  lemma {:induction false} WhensOfRun(M: Machine, ff: int, prog: seq<Op>, ws: Whens, at: int, end: int, b: Value, s: Stack)
    requires Has(prog, at, CodeWhens(ff, ws, at, end, true)) && end == at + SizeWhens(ws, true)
    ensures Leads(M, prog, State(at, Push(b, s)), State(end, Push(EvalWhensOf(M, ff, b, ws), s)))
    decreases ws, 2
  {
    match ws
    case Else(els) => ElseOfRuns(M, ff, prog, els, at, b, s);
    case When(_, _, _) => WhenOfRuns(M, ff, prog, ws, at, end, b, s);
  }

  lemma {:induction false} ElseOfRuns(M: Machine, ff: int, prog: seq<Op>, els: Expr, at: int, b: Value, s: Stack)
    requires Has(prog, at, [Ins(OP_Pop, 1, 0)] + Code(ff, els, at + 1))
    ensures Leads(M, prog, State(at, Push(b, s)), State(at + 1 + Size(els), Push(Eval(M, ff, els), s)))
    decreases els, 4
  {
    var pop := [Ins(OP_Pop, 1, 0)];
    Parts(prog, at, pop, Code(ff, els, at + 1));
    PopOne(M, prog, at, pop, 0, b, s);
    CodeRuns(M, ff, prog, els, at + 1, s);
    Onward(M, prog, State(at, Push(b, s)), State(at + 1, s), State(at + 1 + Size(els), Push(Eval(M, ff, els), s)));
  }

  lemma {:induction false} WhenOfRuns(M: Machine, ff: int, prog: seq<Op>, ws: Whens, at: int, end: int, b: Value, s: Stack)
    requires ws.When? && Has(prog, at, CodeWhens(ff, ws, at, end, true)) && end == at + SizeWhens(ws, true)
    ensures Leads(M, prog, State(at, Push(b, s)), State(end, Push(EvalWhensOf(M, ff, b, ws), s)))
    decreases ws, 1
  {
    var a, bs := at + Size(ws.test) + 3, Push(b, s);
    var next := a + Size(ws.then_) + 1;
    WhenOfTested(M, ff, prog, ws, at, end, b, s);
    if Compare3(M, false, Eq, Eval(M, ff, ws.test), b) == True {
      ThenRuns(M, ff, prog, ws, State(at, bs), a, end, true, s);
    } else {
      WhensOfRun(M, ff, prog, ws.rest, next, end, b, s);
      Onward(M, prog, State(at, bs), State(next, bs), State(end, Push(EvalWhensOf(M, ff, b, ws.rest), s)));
    }
  }

  /** Up to the outcome of the first test. */
  lemma {:induction false} WhenOfTested(M: Machine, ff: int, prog: seq<Op>, ws: Whens, at: int, end: int, b: Value, s: Stack)
    requires ws.When? && Has(prog, at, CodeWhens(ff, ws, at, end, true))
    ensures WhenRest(ff, prog, ws, at + Size(ws.test) + 3, end, true)
    ensures var a := at + Size(ws.test) + 3;
      Leads(M, prog, State(at, Push(b, s)),
            if Compare3(M, false, Eq, Eval(M, ff, ws.test), b) == True then State(a, s)
            else State(a + Size(ws.then_) + 1, Push(b, s)))
    decreases ws, 0
  {
    var a, v, bs := at + Size(ws.test) + 3, Eval(M, ff, ws.test), Push(b, s);
    var next := a + Size(ws.then_) + 1;
    WhenIs(ff, ws, at, end, true);
    WhenCode(ff, prog, ws, at, a, next, end, true);
    CodeRuns(M, ff, prog, ws.test, at, bs);
    TestRuns(M, prog, at + Size(ws.test), next, v, b, s);
    Onward(M, prog, State(at, bs), State(at + Size(ws.test), Push(v, bs)),
           if Compare3(M, false, Eq, v, b) == True then State(a, s) else State(next, bs));
  }

  function TestOf(next: int): seq<Op> {
    [Ins(OP_Dup, 1, 1), Ins(OP_Cmp(false, Ne), 1, next), Ins(OP_Pop, 1, 0)]
  }

  lemma PopOne(M: Machine, prog: seq<Op>, at: int, code: seq<Op>, i: nat, v: Value, s: Stack)
    requires Has(prog, at, code) && i < |code| && code[i] == Ins(OP_Pop, 1, 0)
    ensures Leads(M, prog, State(at + i, Push(v, s)), State(at + i + 1, s))
  {
    assert PopN(Push(v, s), 1) == PopN(s, 0) == Some(s);
    Does(M, prog, at, code, i, Push(v, s), State(at + i + 1, s));
  }

  /** The base is compared with a copy of itself kept below. */
  lemma TestRuns(M: Machine, prog: seq<Op>, a: int, next: int, v: Value, b: Value, s: Stack)
    requires Has(prog, a, TestOf(next)) && next > 0
    ensures Leads(M, prog, State(a, Push(v, Push(b, s))),
                  if Compare3(M, false, Eq, v, b) == True then State(a + 3, s) else State(next, Push(b, s)))
  {
    var c, two, three := TestOf(next), Push(v, Push(b, s)), Push(b, Push(v, Push(b, s)));
    assert Nth(two, 1) == Nth(two.below, 0) == Some(b);
    Does(M, prog, a, c, 0, two, State(a + 1, three));
    NegatedIsNot(M, false, Eq, v, b);
    if Compare3(M, false, Eq, v, b) == True {
      Does(M, prog, a, c, 1, three, State(a + 2, Push(b, s)));
      PopOne(M, prog, a, c, 2, b, s);
      Chain(M, prog, State(a, two), State(a + 1, three), State(a + 2, Push(b, s)), State(a + 3, s));
    } else {
      Does(M, prog, a, c, 1, three, State(next, Push(b, s)));
      Onward(M, prog, State(a, two), State(a + 1, three), State(next, Push(b, s)));
    }
  }
}
