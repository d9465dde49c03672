/** The code generator itself: it appends and patches instructions, and refines the code functions. */
module ExprGenerator {
  import opened ExprValue
  import opened VdbeMachine
  import opened Wrappers
  import opened ExprGen
  import opened ExprCorrect
  import opened ExprJumps

  // ---------------------------------------------------------------- labels

  /** All targets x become addr. */
  function Patched(code: seq<Op>, x: int, addr: int): (r: seq<Op>)
    ensures |r| == |code|
  {
    if code == [] then []
    else [if code[0].p2 == x then code[0].(p2 := addr) else code[0]] + Patched(code[1..], x, addr)
  }

  lemma {:induction false} PatchedAt(code: seq<Op>, x: int, addr: int)
    ensures forall i | 0 <= i < |code| :: Patched(code, x, addr)[i] == if code[i].p2 == x then code[i].(p2 := addr) else code[i]
    decreases |code|
  {
    if code != [] {
      PatchedAt(code[1..], x, addr);
      forall i | 0 <= i < |code|
        ensures Patched(code, x, addr)[i] == if code[i].p2 == x then code[i].(p2 := addr) else code[i]
      {
        if i > 0 { assert code[i] == code[1..][i - 1]; }
      }
    }
  }

  lemma {:induction false} PatchedConcat(a: seq<Op>, b: seq<Op>, x: int, addr: int)
    ensures Patched(a + b, x, addr) == Patched(a, x, addr) + Patched(b, x, addr)
    decreases |a|
  {
    if a == [] {
      assert a + b == b;
    } else {
      assert (a + b)[1..] == a[1..] + b;
      PatchedConcat(a[1..], b, x, addr);
    }
  }

  /** No target of the code is x. */
  ghost predicate Free(code: seq<Op>, x: int) {
    forall i | 0 <= i < |code| :: code[i].p2 != x
  }

  lemma {:induction false} PatchedFree(code: seq<Op>, x: int, addr: int)
    requires Free(code, x)
    ensures Patched(code, x, addr) == code
    decreases |code|
  {
    if code != [] {
      assert forall i | 0 <= i < |code[1..]| :: code[1..][i] == code[i + 1];
      PatchedFree(code[1..], x, addr);
    }
  }

  /** Patching piece by piece. */
  lemma PatchedSum(a: seq<Op>, b: seq<Op>, a2: seq<Op>, b2: seq<Op>, x: int, addr: int)
    requires Patched(a, x, addr) == a2 && Patched(b, x, addr) == b2
    ensures Patched(a + b, x, addr) == a2 + b2
  {
    PatchedConcat(a, b, x, addr);
  }

  /** Four pieces, the first and third without the label. */
  lemma PatchedAround(head: seq<Op>, first: seq<Op>, h: seq<Op>, end: seq<Op>, first2: seq<Op>, end2: seq<Op>, x: int, addr: int)
    requires Free(head, x) && Free(h, x) && Patched(first, x, addr) == first2 && Patched(end, x, addr) == end2
    ensures Patched(head + first + h + end, x, addr) == head + first2 + h + end2
  {
    PatchedFree(head, x, addr);
    PatchedFree(h, x, addr);
    PatchedSum(head, first, head, first2, x, addr);
    PatchedSum(head + first, h, head + first2, h, x, addr);
    PatchedSum(head + first + h, end, head + first2 + h, end2, x, addr);
  }

  /** A label's address once it is known. */
  function Resolve(aLabel: seq<int>, p2: int): int {
    if p2 < 0 && -1 - p2 < |aLabel| && aLabel[-1 - p2] >= 0 then aLabel[-1 - p2] else p2
  }

  // ---------------------------------------------------------------- code without open labels

  lemma FreeConcat(a: seq<Op>, b: seq<Op>, x: int)
    ensures Free(a + b, x) <==> Free(a, x) && Free(b, x)
  {
    if Free(a + b, x) {
      forall i | 0 <= i < |a| ensures a[i].p2 != x { assert (a + b)[i] == a[i]; }
      forall i | 0 <= i < |b| ensures b[i].p2 != x { assert (a + b)[|a| + i] == b[i]; }
    }
  }

  lemma FreeThree(a: seq<Op>, b: seq<Op>, c: seq<Op>, x: int)
    requires Free(a, x) && Free(b, x) && Free(c, x)
    ensures Free(a + b + c, x)
  {
    FreeConcat(a + b, c, x);
    FreeConcat(a, b, x);
  }

  /** A value's code has no labels left. */
  lemma {:induction false} CodeFree(ff: int, e: Expr, at: int, x: int)
    requires x < 0 <= at
    ensures Free(Code(ff, e, at), x)
    decreases e, 1
  {
    match e
    case Arith(_, _, _) => TwoFree(ff, e, at, x);
    case Compare(_, _, _) => TwoFree(ff, e, at, x);
    case And(_, _) => TwoFree(ff, e, at, x);
    case Or(_, _) => TwoFree(ff, e, at, x);
    case Not(l) =>
      CodeFree(ff, l, at, x);
      FreeConcat(Code(ff, l, at), [Ins(OP_Not, 0, 0)], x);
    case IsNull(l) => NullTestFree(ff, l, at, OP_IsNull, x);
    case NotNull(l) => NullTestFree(ff, l, at, OP_NotNull, x);
    case In(l, k) => InFree(ff, l, k, at, x);
    case Between(_, _, _) => BetweenFree(ff, e, at, x);
    case CaseOf(_, _) => CaseFree(ff, e, at, x);
    case CaseWhen(ws) => WhensFree(ff, ws, at, at + Size(e), false, x);
    case _ =>
  }

  lemma {:induction false} CaseFree(ff: int, e: Expr, at: int, x: int)
    requires x < 0 <= at && e.CaseOf?
    ensures Free(Code(ff, e, at), x)
    decreases e, 0
  {
    var a, end := at + Size(e.left), at + Size(e);
    CodeFree(ff, e.left, at, x);
    WhensFree(ff, e.whens, a, end, true, x);
    FreeConcat(Code(ff, e.left, at), CodeWhens(ff, e.whens, a, end, true), x);
  }

  lemma {:induction false} TwoFree(ff: int, e: Expr, at: int, x: int)
    requires x < 0 <= at && (e.Arith? || e.Compare? || e.And? || e.Or?)
    ensures Free(Code(ff, e, at), x)
    decreases e, 0
  {
    CodeFree(ff, e.left, at, x);
    CodeFree(ff, e.right, at + Size(e.left), x);
    FreeThree(Code(ff, e.left, at), Code(ff, e.right, at + Size(e.left)), [TwoOp(ff, e)], x);
  }

  lemma {:induction false} NullTestFree(ff: int, l: Expr, at: int, op: Opcode, x: int)
    requires x < 0 <= at
    ensures Free(CodeNullTest(ff, l, at, op), x)
    decreases l, 2
  {
    CodeFree(ff, l, at + 1, x);
    FreeThree([Ins(OP_Integer, 1, 0)], Code(ff, l, at + 1), [Ins(op, 1, at + Size(l) + 3), Ins(OP_AddImm, -1, 0)], x);
  }

  lemma {:induction false} InFree(ff: int, l: Expr, k: int, at: int, x: int)
    requires x < 0 <= at
    ensures Free(CodeIn(ff, l, k, at), x)
    decreases l, 2
  {
    CodeFree(ff, l, at + 1, x);
    FreeThree([Ins(OP_Integer, 1, 0)], Code(ff, l, at + 1), InTail(k, at + 1 + Size(l)), x);
  }

  lemma {:induction false} BetweenFree(ff: int, e: Expr, at: int, x: int)
    requires x < 0 <= at && e.Between?
    ensures Free(Code(ff, e, at), x)
    decreases e, 0
  {
    var a, lo, hi := e.left, e.lo, e.hi;
    CodeFree(ff, a, at, x);
    CodeFree(ff, lo, at + Size(a) + 1, x);
    CodeFree(ff, hi, at + Size(a) + Size(lo) + 3, x);
    var h := Code(ff, a, at) + [Ins(OP_Dup, 0, 0)] + Code(ff, lo, at + Size(a) + 1);
    FreeThree(Code(ff, a, at), [Ins(OP_Dup, 0, 0)], Code(ff, lo, at + Size(a) + 1), x);
    FreeThree(h, [Ins(OP_Cmp(false, Ge), 0, 0), Ins(OP_Pull, 1, 0)], Code(ff, hi, at + Size(a) + Size(lo) + 3), x);
    FreeConcat(h + [Ins(OP_Cmp(false, Ge), 0, 0), Ins(OP_Pull, 1, 0)] + Code(ff, hi, at + Size(a) + Size(lo) + 3),
               [Ins(OP_Cmp(false, Le), 0, 0), Ins(OP_And, 0, 0)], x);
  }

  lemma {:induction false} WhensFree(ff: int, ws: Whens, at: int, end: int, ofBase: bool, x: int)
    requires x < 0 <= at && end != x
    ensures Free(CodeWhens(ff, ws, at, end, ofBase), x)
    decreases ws, 1
  {
    match ws
    case Else(els) => CodeFree(ff, els, at + Flag(ofBase), x);
    case When(w, t, rest) =>
      var a := at + Size(w) + if ofBase then 3 else 1;
      WhenFree(ff, ws, at, ofBase, x);
      WhensFree(ff, rest, a + Size(t) + 1, end, ofBase, x);
      FreeThree(WhenHead(ff, w, t, at, ofBase), [Ins(OP_Goto, 0, end)], CodeWhens(ff, rest, a + Size(t) + 1, end, ofBase), x);
  }

  // ---------------------------------------------------------------- resolving a label

  /** Resolving the end label of a CASE gives the code with the end address. */
  lemma {:induction false} WhensPatched(ff: int, ws: Whens, at: int, x: int, end: int, ofBase: bool)
    requires x < 0 <= at
    ensures Patched(CodeWhens(ff, ws, at, x, ofBase), x, end) == CodeWhens(ff, ws, at, end, ofBase)
    decreases ws
  {
    match ws
    case Else(els) => ElsePatched(ff, els, at, x, end, ofBase);
    case When(w, t, rest) =>
      var next := at + Size(w) + (if ofBase then 3 else 1) + Size(t) + 1;
      WhensPatched(ff, rest, next, x, end, ofBase);
      WhenPatched(ff, ws, at, next, x, end, ofBase, CodeWhens(ff, rest, next, x, ofBase), CodeWhens(ff, rest, next, end, ofBase));
  }

  lemma WhenPatched(ff: int, ws: Whens, at: int, next: int, x: int, end: int, ofBase: bool, rest: seq<Op>, rest2: seq<Op>)
    requires x < 0 <= at && ws.When? && next == at + Size(ws.test) + (if ofBase then 3 else 1) + Size(ws.then_) + 1
    requires rest == CodeWhens(ff, ws.rest, next, x, ofBase) && rest2 == CodeWhens(ff, ws.rest, next, end, ofBase)
    requires Patched(rest, x, end) == rest2
    ensures Patched(CodeWhens(ff, ws, at, x, ofBase), x, end) == CodeWhens(ff, ws, at, end, ofBase)
  {
    var head := WhenHead(ff, ws.test, ws.then_, at, ofBase);
    WhenFree(ff, ws, at, ofBase, x);
    OneWhenPatched(head, rest, rest2, x, end);
    assert CodeWhens(ff, ws, at, x, ofBase) == head + [Ins(OP_Goto, 0, x)] + rest;
    assert CodeWhens(ff, ws, at, end, ofBase) == head + [Ins(OP_Goto, 0, end)] + rest2;
  }

  lemma ElsePatched(ff: int, els: Expr, at: int, x: int, end: int, ofBase: bool)
    requires x < 0 <= at
    ensures var code := (if ofBase then [Ins(OP_Pop, 1, 0)] else []) + Code(ff, els, at + Flag(ofBase));
      Patched(code, x, end) == code
  {
    var pop := if ofBase then [Ins(OP_Pop, 1, 0)] else [];
    CodeFree(ff, els, at + Flag(ofBase), x);
    FreeConcat(pop, Code(ff, els, at + Flag(ofBase)), x);
    PatchedFree(pop + Code(ff, els, at + Flag(ofBase)), x, end);
  }

  lemma OneWhenPatched(head: seq<Op>, rest: seq<Op>, rest2: seq<Op>, x: int, end: int)
    requires Free(head, x) && Patched(rest, x, end) == rest2
    ensures Patched(head + [Ins(OP_Goto, 0, x)] + rest, x, end) == head + [Ins(OP_Goto, 0, end)] + rest2
  {
    PatchedFree(head, x, end);
    PatchedOne(Ins(OP_Goto, 0, x), x, end);
    PatchedSum(head, [Ins(OP_Goto, 0, x)], head, [Ins(OP_Goto, 0, end)], x, end);
    PatchedSum(head + [Ins(OP_Goto, 0, x)], rest, head + [Ins(OP_Goto, 0, end)], rest2, x, end);
  }

  lemma PatchedOne(op: Op, x: int, addr: int)
    ensures Patched([op], x, addr) == [if op.p2 == x then op.(p2 := addr) else op]
  {
    assert [op][1..] == [];
  }

  /** A WHEN up to the jump to the end. */
  function WhenHead(ff: int, w: Expr, t: Expr, at: int, ofBase: bool): seq<Op> {
    var a := at + Size(w) + if ofBase then 3 else 1;
    Code(ff, w, at)
    + (if ofBase then TestOf(a + Size(t) + 1) else [Ins(OP_IfNot, 1, a + Size(t) + 1)])
    + Code(ff, t, a)
  }

  lemma {:induction false} WhenFree(ff: int, ws: Whens, at: int, ofBase: bool, x: int)
    requires x < 0 <= at && ws.When?
    ensures Free(WhenHead(ff, ws.test, ws.then_, at, ofBase), x)
    decreases ws, 0
  {
    var w, t := ws.test, ws.then_;
    var a := at + Size(w) + if ofBase then 3 else 1;
    CodeFree(ff, w, at, x);
    CodeFree(ff, t, a, x);
    HeadFree(Code(ff, w, at), Code(ff, t, a), a + Size(t) + 1, ofBase, x);
  }

  lemma HeadFree(w: seq<Op>, t: seq<Op>, next: int, ofBase: bool, x: int)
    requires Free(w, x) && Free(t, x) && x < 0 < next
    ensures Free(w + (if ofBase then TestOf(next) else [Ins(OP_IfNot, 1, next)]) + t, x)
  {
    FreeThree(w, if ofBase then TestOf(next) else [Ins(OP_IfNot, 1, next)], t, x);
  }

  /** What jumps to a label jumps, once the label is resolved, to its address. */
  lemma {:induction false} TruePatched(ff: int, e: Expr, at: int, dest: int, jumpIfNull: bool, x: int, addr: int)
    requires x < 0 <= at
    ensures Patched(CodeTrue(ff, e, at, dest, jumpIfNull), x, addr) == CodeTrue(ff, e, at, if dest == x then addr else dest, jumpIfNull)
    decreases e, 1
  {
    match e
    case And(_, _) => AndTruePatched(ff, e, at, dest, jumpIfNull, x, addr);
    case Or(_, _) => OrTruePatched(ff, e, at, dest, jumpIfNull, x, addr);
    case Not(l) => FalsePatched(ff, l, at, dest, jumpIfNull, x, addr);
    case Between(_, _, _) => BetweenTruePatched(ff, e, at, dest, jumpIfNull, x, addr);
    case In(l, k) => InPatched(ff, l, k, at, true, dest, jumpIfNull, x, addr);
    case _ => TestPatched(ff, e, at, true, dest, jumpIfNull, x, addr);
  }

  lemma {:induction false} AndTruePatched(ff: int, e: Expr, at: int, dest: int, jumpIfNull: bool, x: int, addr: int)
    requires x < 0 <= at && e.And?
    ensures Patched(CodeTrue(ff, e, at, dest, jumpIfNull), x, addr) == CodeTrue(ff, e, at, if dest == x then addr else dest, jumpIfNull)
    decreases e, 0
  {
    var l, r := e.left, e.right;
    FalsePatched(ff, l, at, at + SizeTrue(e), !jumpIfNull, x, addr);
    TruePatched(ff, r, at + SizeFalse(l), dest, jumpIfNull, x, addr);
    var a, d := CodeFalse(ff, l, at, at + SizeTrue(e), !jumpIfNull), if dest == x then addr else dest;
    var b, b2 := CodeTrue(ff, r, at + SizeFalse(l), dest, jumpIfNull), CodeTrue(ff, r, at + SizeFalse(l), d, jumpIfNull);
    PatchedSum(a, b, a, b2, x, addr);
    AndTrueIs(ff, e, at, dest, jumpIfNull, a, b);
    AndTrueIs(ff, e, at, d, jumpIfNull, a, b2);
  }

  lemma AndTrueIs(ff: int, e: Expr, at: int, dest: int, jumpIfNull: bool, a: seq<Op>, b: seq<Op>)
    requires e.And? && a == CodeFalse(ff, e.left, at, at + SizeTrue(e), !jumpIfNull)
    requires b == CodeTrue(ff, e.right, at + SizeFalse(e.left), dest, jumpIfNull)
    ensures CodeTrue(ff, e, at, dest, jumpIfNull) == a + b
  {
  }

  lemma {:induction false} OrFalsePatched(ff: int, e: Expr, at: int, dest: int, jumpIfNull: bool, x: int, addr: int)
    requires x < 0 <= at && e.Or?
    ensures Patched(CodeFalse(ff, e, at, dest, jumpIfNull), x, addr) == CodeFalse(ff, e, at, if dest == x then addr else dest, jumpIfNull)
    decreases e, 0
  {
    var l, r := e.left, e.right;
    TruePatched(ff, l, at, at + SizeFalse(e), !jumpIfNull, x, addr);
    FalsePatched(ff, r, at + SizeTrue(l), dest, jumpIfNull, x, addr);
    var a, d := CodeTrue(ff, l, at, at + SizeFalse(e), !jumpIfNull), if dest == x then addr else dest;
    var b, b2 := CodeFalse(ff, r, at + SizeTrue(l), dest, jumpIfNull), CodeFalse(ff, r, at + SizeTrue(l), d, jumpIfNull);
    PatchedSum(a, b, a, b2, x, addr);
    OrFalseIs(ff, e, at, dest, jumpIfNull, a, b);
    OrFalseIs(ff, e, at, d, jumpIfNull, a, b2);
  }

  /** Both operands jump to the label. */
  lemma {:induction false} OrTruePatched(ff: int, e: Expr, at: int, dest: int, jumpIfNull: bool, x: int, addr: int)
    requires x < 0 <= at && e.Or?
    ensures Patched(CodeTrue(ff, e, at, dest, jumpIfNull), x, addr) == CodeTrue(ff, e, at, if dest == x then addr else dest, jumpIfNull)
    decreases e, 0
  {
    var l, r, d := e.left, e.right, if dest == x then addr else dest;
    TruePatched(ff, l, at, dest, jumpIfNull, x, addr);
    TruePatched(ff, r, at + SizeTrue(l), dest, jumpIfNull, x, addr);
    PatchedSum(CodeTrue(ff, l, at, dest, jumpIfNull), CodeTrue(ff, r, at + SizeTrue(l), dest, jumpIfNull),
               CodeTrue(ff, l, at, d, jumpIfNull), CodeTrue(ff, r, at + SizeTrue(l), d, jumpIfNull), x, addr);
  }

  lemma {:induction false} AndFalsePatched(ff: int, e: Expr, at: int, dest: int, jumpIfNull: bool, x: int, addr: int)
    requires x < 0 <= at && e.And?
    ensures Patched(CodeFalse(ff, e, at, dest, jumpIfNull), x, addr) == CodeFalse(ff, e, at, if dest == x then addr else dest, jumpIfNull)
    decreases e, 0
  {
    var l, r, d := e.left, e.right, if dest == x then addr else dest;
    FalsePatched(ff, l, at, dest, jumpIfNull, x, addr);
    FalsePatched(ff, r, at + SizeFalse(l), dest, jumpIfNull, x, addr);
    PatchedSum(CodeFalse(ff, l, at, dest, jumpIfNull), CodeFalse(ff, r, at + SizeFalse(l), dest, jumpIfNull),
               CodeFalse(ff, l, at, d, jumpIfNull), CodeFalse(ff, r, at + SizeFalse(l), d, jumpIfNull), x, addr);
  }

  lemma OrFalseIs(ff: int, e: Expr, at: int, dest: int, jumpIfNull: bool, a: seq<Op>, b: seq<Op>)
    requires e.Or? && a == CodeTrue(ff, e.left, at, at + SizeFalse(e), !jumpIfNull)
    requires b == CodeFalse(ff, e.right, at + SizeTrue(e.left), dest, jumpIfNull)
    ensures CodeFalse(ff, e, at, dest, jumpIfNull) == a + b
  {
  }

  lemma {:induction false} FalsePatched(ff: int, e: Expr, at: int, dest: int, jumpIfNull: bool, x: int, addr: int)
    requires x < 0 <= at
    ensures Patched(CodeFalse(ff, e, at, dest, jumpIfNull), x, addr) == CodeFalse(ff, e, at, if dest == x then addr else dest, jumpIfNull)
    decreases e, 1
  {
    match e
    case And(_, _) => AndFalsePatched(ff, e, at, dest, jumpIfNull, x, addr);
    case Or(_, _) => OrFalsePatched(ff, e, at, dest, jumpIfNull, x, addr);
    case Not(l) => TruePatched(ff, l, at, dest, jumpIfNull, x, addr);
    case Between(_, _, _) => BetweenFalsePatched(ff, e, at, dest, jumpIfNull, x, addr);
    case In(l, k) => InPatched(ff, l, k, at, false, dest, jumpIfNull, x, addr);
    case _ => TestPatched(ff, e, at, false, dest, jumpIfNull, x, addr);
  }

  /** A value's code followed by jumps on it. */
  lemma TailPatched(code: seq<Op>, tail: seq<Op>, x: int, addr: int)
    requires Free(code, x)
    ensures Patched(code + tail, x, addr) == code + Patched(tail, x, addr)
  {
    PatchedConcat(code, tail, x, addr);
    PatchedFree(code, x, addr);
  }

  /** The instruction that ends a test. */
  function TestOp(ff: int, e: Expr, onTrue: bool, dest: int, jumpIfNull: bool): Op
    requires !e.And? && !e.Or? && !e.Not? && !e.Between? && !e.In?
  {
    match e
    case Compare(op, _, _) => Ins(OP_Cmp(TextCompare(ff, e), if onTrue then op else Negated(op)), Flag(jumpIfNull), dest)
    case IsNull(_) => Ins(if onTrue then OP_IsNull else OP_NotNull, 1, dest)
    case NotNull(_) => Ins(if onTrue then OP_NotNull else OP_IsNull, 1, dest)
    case _ => Ins(if onTrue then OP_If else OP_IfNot, Flag(jumpIfNull), dest)
  }

  function TestBody(ff: int, e: Expr, at: int): seq<Op>
    requires !e.And? && !e.Or? && !e.Not? && !e.Between? && !e.In?
  {
    match e
    case Compare(_, l, r) => Code(ff, l, at) + Code(ff, r, at + Size(l))
    case IsNull(l) => Code(ff, l, at)
    case NotNull(l) => Code(ff, l, at)
    case _ => Code(ff, e, at)
  }

  lemma TestPatched(ff: int, e: Expr, at: int, onTrue: bool, dest: int, jumpIfNull: bool, x: int, addr: int)
    requires x < 0 <= at && !e.And? && !e.Or? && !e.Not? && !e.Between? && !e.In?
    ensures var d := if dest == x then addr else dest;
      if onTrue then Patched(CodeTrue(ff, e, at, dest, jumpIfNull), x, addr) == CodeTrue(ff, e, at, d, jumpIfNull)
      else Patched(CodeFalse(ff, e, at, dest, jumpIfNull), x, addr) == CodeFalse(ff, e, at, d, jumpIfNull)
  {
    var d := if dest == x then addr else dest;
    TestBodyFree(ff, e, at, x);
    TestIs(ff, e, at, onTrue, dest, jumpIfNull);
    TestIs(ff, e, at, onTrue, d, jumpIfNull);
    TailPatched(TestBody(ff, e, at), [TestOp(ff, e, onTrue, dest, jumpIfNull)], x, addr);
    PatchedOne(TestOp(ff, e, onTrue, dest, jumpIfNull), x, addr);
  }

  lemma TestIs(ff: int, e: Expr, at: int, onTrue: bool, dest: int, jumpIfNull: bool)
    requires !e.And? && !e.Or? && !e.Not? && !e.Between? && !e.In?
    ensures (if onTrue then CodeTrue(ff, e, at, dest, jumpIfNull) else CodeFalse(ff, e, at, dest, jumpIfNull))
         == TestBody(ff, e, at) + [TestOp(ff, e, onTrue, dest, jumpIfNull)]
  {}

  lemma TestBodyFree(ff: int, e: Expr, at: int, x: int)
    requires x < 0 <= at && !e.And? && !e.Or? && !e.Not? && !e.Between? && !e.In?
    ensures Free(TestBody(ff, e, at), x)
  {
    match e
    case Compare(_, l, r) =>
      CodeFree(ff, l, at, x);
      CodeFree(ff, r, at + Size(l), x);
      FreeConcat(Code(ff, l, at), Code(ff, r, at + Size(l)), x);
    case IsNull(l) => CodeFree(ff, l, at, x);
    case NotNull(l) => CodeFree(ff, l, at, x);
    case _ => CodeFree(ff, e, at, x);
  }

  lemma InPatched(ff: int, l: Expr, k: int, at: int, found: bool, dest: int, jumpIfNull: bool, x: int, addr: int)
    requires x < 0 <= at
    ensures var d := if dest == x then addr else dest;
      Patched(CodeInJump(ff, l, at, Look(k, found, dest), dest, jumpIfNull), x, addr) == CodeInJump(ff, l, at, Look(k, found, d), d, jumpIfNull)
  {
    var d, a := if dest == x then addr else dest, at + Size(l);
    CodeFree(ff, l, at, x);
    TailPatched(Code(ff, l, at), InJumpTail(k, found, a, dest, jumpIfNull), x, addr);
    PatchedAt(InJumpTail(k, found, a, dest, jumpIfNull), x, addr);
    assert Patched(InJumpTail(k, found, a, dest, jumpIfNull), x, addr) == InJumpTail(k, found, a, d, jumpIfNull);
  }

  /** BETWEEN up to its first comparison. */
  lemma BetweenHeadFree(ff: int, e: Expr, at: int, x: int)
    requires x < 0 <= at && e.Between?
    ensures Free(Code(ff, e.left, at) + [Ins(OP_Dup, 0, 0)] + Code(ff, e.lo, at + Size(e.left) + 1), x)
  {
    CodeFree(ff, e.left, at, x);
    CodeFree(ff, e.lo, at + Size(e.left) + 1, x);
    FreeThree(Code(ff, e.left, at), [Ins(OP_Dup, 0, 0)], Code(ff, e.lo, at + Size(e.left) + 1), x);
  }

  lemma BetweenTruePatched(ff: int, e: Expr, at: int, dest: int, jumpIfNull: bool, x: int, addr: int)
    requires x < 0 <= at && e.Between?
    ensures Patched(CodeTrue(ff, e, at, dest, jumpIfNull), x, addr) == CodeTrue(ff, e, at, if dest == x then addr else dest, jumpIfNull)
  {
    var a := at + Size(e.left) + 1 + Size(e.lo);
    var head := Code(ff, e.left, at) + [Ins(OP_Dup, 0, 0)] + Code(ff, e.lo, at + Size(e.left) + 1);
    var first, hi := [Ins(OP_Cmp(false, Lt), Flag(!jumpIfNull), a + Size(e.hi) + 3)], Code(ff, e.hi, a + 1);
    BetweenHeadFree(ff, e, at, x);
    CodeFree(ff, e.hi, a + 1, x);
    FreeThree(head, first, hi, x);
    TailPatched(head + first + hi, BetweenTrueEnd(dest, jumpIfNull), x, addr);
    PatchedAt(BetweenTrueEnd(dest, jumpIfNull), x, addr);
    assert Patched(BetweenTrueEnd(dest, jumpIfNull), x, addr) == BetweenTrueEnd(if dest == x then addr else dest, jumpIfNull);
  }

  lemma BetweenFalsePatched(ff: int, e: Expr, at: int, dest: int, jumpIfNull: bool, x: int, addr: int)
    requires x < 0 <= at && e.Between?
    ensures Patched(CodeFalse(ff, e, at, dest, jumpIfNull), x, addr) == CodeFalse(ff, e, at, if dest == x then addr else dest, jumpIfNull)
  {
    var d, a := if dest == x then addr else dest, at + Size(e.left) + 1 + Size(e.lo);
    BetweenHeadFree(ff, e, at, x);
    CodeFree(ff, e.hi, a + 3, x);
    FalseFirstPatched(a, dest, jumpIfNull, x, addr);
    PatchedOne(Ins(OP_Cmp(false, Gt), Flag(jumpIfNull), dest), x, addr);
    PatchedAround(Code(ff, e.left, at) + [Ins(OP_Dup, 0, 0)] + Code(ff, e.lo, at + Size(e.left) + 1),
                  BetweenFalseFirst(a, dest, jumpIfNull), Code(ff, e.hi, a + 3), [Ins(OP_Cmp(false, Gt), Flag(jumpIfNull), dest)],
                  BetweenFalseFirst(a, d, jumpIfNull), [Ins(OP_Cmp(false, Gt), Flag(jumpIfNull), d)], x, addr);
  }

  lemma FalseFirstPatched(a: int, dest: int, jumpIfNull: bool, x: int, addr: int)
    requires x < 0 <= a
    ensures Patched(BetweenFalseFirst(a, dest, jumpIfNull), x, addr)
         == BetweenFalseFirst(a, if dest == x then addr else dest, jumpIfNull)
  {
    PatchedAt(BetweenFalseFirst(a, dest, jumpIfNull), x, addr);
  }

  // ---------------------------------------------------------------- the generator

  /** A program being built: instructions so far, and for each label its address or -1. */
  class Vdbe {
    var aOp: seq<Op>
    var aLabel: seq<int>

    constructor ()
      ensures aOp == [] && aLabel == [] && Valid()
    {
      aOp, aLabel := [], [];
    }

    /** Every open target is a label that has been made. */
    ghost predicate Valid()
      reads this
    {
      forall i | 0 <= i < |aOp| :: -1 - aOp[i].p2 < |aLabel|
    }

    method AddOp(opcode: Opcode, p1: int, p2: int, p3: P3) returns (addr: int)
      requires Valid() && -1 - p2 < |aLabel|
      modifies this
      ensures Valid() && aLabel == old(aLabel)
      ensures addr == |old(aOp)| && aOp == old(aOp) + [Op(opcode, p1, Resolve(aLabel, p2), p3)]
    {
      addr := |aOp|;
      var q2 := p2;
      if p2 < 0 && -1 - p2 < |aLabel| && aLabel[-1 - p2] >= 0 {
        q2 := aLabel[-1 - p2];
      }
      aOp := aOp + [Op(opcode, p1, q2, p3)];
    }

    /** A new label, negative and in no instruction. */
    method MakeLabel() returns (x: int)
      requires Valid()
      modifies this
      ensures Valid() && aOp == old(aOp) && aLabel == old(aLabel) + [-1] && x == -1 - |old(aLabel)|
      ensures Free(aOp, x)
    {
      x := -1 - |aLabel|;
      aLabel := aLabel + [-1];
    }

    /** The label is the next address, in all instructions that name it. */
    method ResolveLabel(x: int)
      requires Valid() && x < 0 && -1 - x < |aLabel| && aLabel[-1 - x] == -1
      modifies this
      ensures Valid() && aLabel == old(aLabel)[-1 - x := |aOp|]
      ensures aOp == Patched(old(aOp), x, |old(aOp)|)
    {
      ghost var code, p := aOp, Patched(aOp, x, |aOp|);
      PatchedAt(code, x, |code|);
      aLabel := aLabel[-1 - x := |aOp|];
      var j := 0;
      while j < |aOp|
        invariant 0 <= j <= |aOp| == |code| && aLabel == old(aLabel)[-1 - x := |code|]
        invariant forall i | 0 <= i < j :: aOp[i] == p[i]
        invariant forall i | j <= i < |code| :: aOp[i] == code[i]
      {
        if aOp[j].p2 == x {
          aOp := aOp[j := aOp[j].(p2 := |aOp|)];
        }
        j := j + 1;
      }
      assert aOp == p;
    }

    method ChangeP2(addr: int, val: int)
      requires Valid() && val >= 0
      modifies this
      ensures Valid() && aLabel == old(aLabel)
      ensures aOp == if 0 <= addr < |old(aOp)| then old(aOp)[addr := old(aOp)[addr].(p2 := val)] else old(aOp)
    {
      if 0 <= addr < |aOp| {
        aOp := aOp[addr := aOp[addr].(p2 := val)];
      }
    }
  }

  /** Labels that were there are as they were. */
  ghost predicate LabelsKept(a: seq<int>, b: seq<int>) {
    |a| <= |b| && b[..|a|] == a
  }

  lemma ResolveKept(a: seq<int>, b: seq<int>, dest: int)
    requires LabelsKept(a, b) && -1 - dest < |a|
    ensures Resolve(b, dest) == Resolve(a, dest)
  {
    if dest < 0 { assert b[..|a|][-1 - dest] == a[-1 - dest]; }
  }

  lemma Assoc3<T>(o: seq<T>, a: seq<T>, b: seq<T>, c: seq<T>)
    ensures o + a + b + c == o + (a + b + c)
  {}

  lemma Assoc2<T>(o: seq<T>, a: seq<T>, b: seq<T>)
    ensures o + a + b == o + (a + b)
  {}

  /** sqliteExprCode: code that pushes the value of the expression. */
  method ExprCode(v: Vdbe, ff: int, e: Expr)
    requires v.Valid()
    modifies v
    ensures v.Valid() && LabelsKept(old(v.aLabel), v.aLabel)
    ensures v.aOp == old(v.aOp) + Code(ff, e, |old(v.aOp)|)
    decreases e, 2
  {
    match e
    case Column(t, i, _) =>
      if i >= 0 { var _ := v.AddOp(OP_Column, t, i, NoText); } else { var _ := v.AddOp(OP_Recno, t, 0, NoText); }
    case Integer(n, z) => var _ := v.AddOp(OP_Integer, n, 0, P3(z));
    case Float(z) => var _ := v.AddOp(OP_String, 0, 0, P3(z));
    case Str(z) => var _ := v.AddOp(OP_String, 0, 0, P3(z));
    case NullLiteral => var _ := v.AddOp(OP_String, 0, 0, NoText);
    case Variable(k) => var _ := v.AddOp(OP_Variable, k, 0, NoText);
    case Arith(op, l, r) => TwoCode(v, ff, e, OP_Arith(op), 0, 0);
    case Compare(op, l, r) => TwoCode(v, ff, e, OP_Cmp(TextCompare(ff, e), op), 0, 0);
    case And(l, r) => TwoCode(v, ff, e, OP_And, 0, 0);
    case Or(l, r) => TwoCode(v, ff, e, OP_Or, 0, 0);
    case Not(l) =>
      ExprCode(v, ff, l);
      var _ := v.AddOp(OP_Not, 0, 0, NoText);
    case IsNull(_) => NullTestCode(v, ff, e);
    case NotNull(_) => NullTestCode(v, ff, e);
    case In(_, _) => InCode(v, ff, e);
    case Between(_, _, _) => BetweenCode(v, ff, e);
    case CaseOf(_, _) => CaseCode(v, ff, e);
    case CaseWhen(_) => CaseCode(v, ff, e);
  }

  /** Both operands, then one instruction. */
  method TwoCode(v: Vdbe, ff: int, e: Expr, op: Opcode, p1: int, p2: int)
    requires v.Valid() && -1 - p2 < |v.aLabel| && (e.Arith? || e.Compare? || e.And? || e.Or?)
    modifies v
    ensures v.Valid() && LabelsKept(old(v.aLabel), v.aLabel)
    ensures var at, o := |old(v.aOp)|, old(v.aOp);
      v.aOp == o + (Code(ff, e.left, at) + Code(ff, e.right, at + Size(e.left)) + [Ins(op, p1, Resolve(old(v.aLabel), p2))])
    decreases e, 0
  {
    ghost var o, at, labels := v.aOp, |v.aOp|, v.aLabel;
    ExprCode(v, ff, e.left);
    ExprCode(v, ff, e.right);
    ResolveKept(labels, v.aLabel, p2);
    var _ := v.AddOp(op, p1, p2, NoText);
    Assoc3(o, Code(ff, e.left, at), Code(ff, e.right, at + Size(e.left)), [Ins(op, p1, Resolve(labels, p2))]);
  }

  method NullTestCode(v: Vdbe, ff: int, e: Expr)
    requires v.Valid() && (e.IsNull? || e.NotNull?)
    modifies v
    ensures v.Valid() && LabelsKept(old(v.aLabel), v.aLabel)
    ensures v.aOp == old(v.aOp) + CodeNullTest(ff, e.left, |old(v.aOp)|, if e.IsNull? then OP_IsNull else OP_NotNull)
    decreases e, 0
  {
    ghost var o, at := v.aOp, |v.aOp|;
    var op := if e.IsNull? then OP_IsNull else OP_NotNull;
    var _ := v.AddOp(OP_Integer, 1, 0, NoText);
    ExprCode(v, ff, e.left);
    var dest := |v.aOp| + 2;
    var _ := v.AddOp(op, 1, dest, NoText);
    var _ := v.AddOp(OP_AddImm, -1, 0, NoText);
    Assoc3(o, [Ins(OP_Integer, 1, 0)], Code(ff, e.left, at + 1), [Ins(op, 1, dest), Ins(OP_AddImm, -1, 0)]);
    assert dest == at + Size(e.left) + 3;
  }

  method InCode(v: Vdbe, ff: int, e: Expr)
    requires v.Valid() && e.In?
    modifies v
    ensures v.Valid() && LabelsKept(old(v.aLabel), v.aLabel)
    ensures v.aOp == old(v.aOp) + CodeIn(ff, e.left, e.iSet, |old(v.aOp)|)
    decreases e, 0
  {
    ghost var o, at := v.aOp, |v.aOp|;
    var _ := v.AddOp(OP_Integer, 1, 0, NoText);
    ExprCode(v, ff, e.left);
    var addr := |v.aOp|;
    ghost var before := v.aOp;
    var _ := v.AddOp(OP_NotNull, -1, addr + 4, NoText);
    var _ := v.AddOp(OP_Pop, 2, 0, NoText);
    var _ := v.AddOp(OP_String, 0, 0, NoText);
    var _ := v.AddOp(OP_Goto, 0, addr + 6, NoText);
    var _ := v.AddOp(OP_SetFound, e.iSet, addr + 6, NoText);
    var _ := v.AddOp(OP_AddImm, -1, 0, NoText);
    assert v.aOp == before + InTail(e.iSet, addr);
    Assoc3(o, [Ins(OP_Integer, 1, 0)], Code(ff, e.left, at + 1), InTail(e.iSet, addr));
  }

  method BetweenCode(v: Vdbe, ff: int, e: Expr)
    requires v.Valid() && e.Between?
    modifies v
    ensures v.Valid() && LabelsKept(old(v.aLabel), v.aLabel)
    ensures v.aOp == old(v.aOp) + Code(ff, e, |old(v.aOp)|)
    decreases e, 1
  {
    ghost var o, at := v.aOp, |v.aOp|;
    BetweenHeadCode(v, ff, e);
    ghost var a, o1 := at + Size(e.left) + 1 + Size(e.lo), v.aOp;
    BetweenTailCode(v, ff, e);
    Assoc2(o, Code(ff, e.left, at) + [Ins(OP_Dup, 0, 0)] + Code(ff, e.lo, at + Size(e.left) + 1), BetweenTail(ff, e, a));
    BetweenIs(ff, e, at);
  }

  function BetweenTail(ff: int, e: Expr, a: int): seq<Op>
    requires e.Between?
  {
    [Ins(OP_Cmp(false, Ge), 0, 0), Ins(OP_Pull, 1, 0)] + Code(ff, e.hi, a + 2)
    + [Ins(OP_Cmp(false, Le), 0, 0), Ins(OP_And, 0, 0)]
  }

  lemma BetweenIs(ff: int, e: Expr, at: int)
    requires e.Between?
    ensures Code(ff, e, at)
         == Code(ff, e.left, at) + [Ins(OP_Dup, 0, 0)] + Code(ff, e.lo, at + Size(e.left) + 1)
          + BetweenTail(ff, e, at + Size(e.left) + 1 + Size(e.lo))
  {}

  /** The comparison with the lower bound, the upper bound, and both results joined. */
  method BetweenTailCode(v: Vdbe, ff: int, e: Expr)
    requires v.Valid() && e.Between?
    modifies v
    ensures v.Valid() && LabelsKept(old(v.aLabel), v.aLabel)
    ensures v.aOp == old(v.aOp) + BetweenTail(ff, e, |old(v.aOp)|)
    decreases e, 0
  {
    ghost var o := v.aOp;
    var _ := v.AddOp(OP_Cmp(false, Ge), 0, 0, NoText);
    var _ := v.AddOp(OP_Pull, 1, 0, NoText);
    ghost var mid := [Ins(OP_Cmp(false, Ge), 0, 0), Ins(OP_Pull, 1, 0)];
    assert v.aOp == o + mid;
    ExprCode(v, ff, e.hi);
    var _ := v.AddOp(OP_Cmp(false, Le), 0, 0, NoText);
    var _ := v.AddOp(OP_And, 0, 0, NoText);
    Assoc3(o, mid, Code(ff, e.hi, |o| + 2), [Ins(OP_Cmp(false, Le), 0, 0), Ins(OP_And, 0, 0)]);
  }

  /** x, a copy of it, and the lower bound. */
  method BetweenHeadCode(v: Vdbe, ff: int, e: Expr)
    requires v.Valid() && e.Between?
    modifies v
    ensures v.Valid() && LabelsKept(old(v.aLabel), v.aLabel)
    ensures var at, o := |old(v.aOp)|, old(v.aOp);
      v.aOp == o + (Code(ff, e.left, at) + [Ins(OP_Dup, 0, 0)] + Code(ff, e.lo, at + Size(e.left) + 1))
    decreases e, 0
  {
    ghost var o, at := v.aOp, |v.aOp|;
    ExprCode(v, ff, e.left);
    var _ := v.AddOp(OP_Dup, 0, 0, NoText);
    ExprCode(v, ff, e.lo);
    Assoc3(o, Code(ff, e.left, at), [Ins(OP_Dup, 0, 0)], Code(ff, e.lo, at + Size(e.left) + 1));
  }

  // ---------------------------------------------------------------- CASE

  /** The results of all WHENs jump to one label, which is resolved at the end. */
  method CaseCode(v: Vdbe, ff: int, e: Expr)
    requires v.Valid() && (e.CaseOf? || e.CaseWhen?)
    modifies v
    ensures v.Valid() && LabelsKept(old(v.aLabel), v.aLabel)
    ensures v.aOp == old(v.aOp) + Code(ff, e, |old(v.aOp)|)
    decreases e, 1
  {
    ghost var o := v.aOp;
    var exprEndLabel := v.MakeLabel();
    if e.CaseOf? {
      ExprCode(v, ff, e.left);
      WhensCode(v, ff, e, exprEndLabel, true);
      CaseOfResolved(ff, e, o, exprEndLabel);
    } else {
      WhensCode(v, ff, e, exprEndLabel, false);
      CaseWhenResolved(ff, e, o, exprEndLabel);
    }
    v.ResolveLabel(exprEndLabel);
  }

  /** A label resolved at the end of code that ends in a CASE's WHENs. */
  lemma WhensResolved(ff: int, ws: Whens, before: seq<Op>, x: int, ofBase: bool)
    requires x < 0 && Free(before, x)
    ensures var end := |before| + SizeWhens(ws, ofBase);
      Patched(before + CodeWhens(ff, ws, |before|, x, ofBase), x, end) == before + CodeWhens(ff, ws, |before|, end, ofBase)
  {
    TailPatched(before, CodeWhens(ff, ws, |before|, x, ofBase), x, |before| + SizeWhens(ws, ofBase));
    WhensPatched(ff, ws, |before|, x, |before| + SizeWhens(ws, ofBase), ofBase);
  }

  lemma CaseOfResolved(ff: int, e: Expr, o: seq<Op>, x: int)
    requires e.CaseOf? && x < 0 && Free(o, x)
    ensures var before := o + Code(ff, e.left, |o|);
      var code := before + CodeWhens(ff, e.whens, |before|, x, true);
      Patched(code, x, |code|) == o + Code(ff, e, |o|)
  {
    var before := o + Code(ff, e.left, |o|);
    CodeFree(ff, e.left, |o|, x);
    FreeConcat(o, Code(ff, e.left, |o|), x);
    WhensResolved(ff, e.whens, before, x, true);
    Assoc2(o, Code(ff, e.left, |o|), CodeWhens(ff, e.whens, |before|, |o| + Size(e), true));
  }

  lemma CaseWhenResolved(ff: int, e: Expr, o: seq<Op>, x: int)
    requires e.CaseWhen? && x < 0 && Free(o, x)
    ensures var code := o + CodeWhens(ff, e.whens, |o|, x, false);
      Patched(code, x, |code|) == o + Code(ff, e, |o|)
  {
    WhensResolved(ff, e.whens, o, x, false);
  }

  /** The WHENs in turn, then the ELSE. */
  method WhensCode(v: Vdbe, ff: int, e: Expr, end: int, ofBase: bool)
    requires v.Valid() && (e.CaseOf? || e.CaseWhen?) && end < 0 && -1 - end < |v.aLabel| && v.aLabel[-1 - end] == -1
    modifies v
    ensures v.Valid() && LabelsKept(old(v.aLabel), v.aLabel)
    ensures v.aOp == old(v.aOp) + CodeWhens(ff, e.whens, |old(v.aOp)|, end, ofBase)
    decreases e, 0
  {
    ghost var all := v.aOp + CodeWhens(ff, e.whens, |v.aOp|, end, ofBase);
    ghost var labels := v.aLabel;
    var rest := e.whens;
    while rest.When?
      invariant v.Valid() && LabelsKept(labels, v.aLabel) && (rest == e.whens || rest < e.whens)
      invariant v.aOp + CodeWhens(ff, rest, |v.aOp|, end, ofBase) == all
      decreases rest
    {
      LabelOpen(labels, v.aLabel, end);
      ghost var o := v.aOp;
      WhenCode(v, ff, rest, end, ofBase);
      OneWhen(ff, rest, o, end, ofBase);
      rest := rest.rest;
    }
    ghost var o := v.aOp;
    if ofBase {
      var _ := v.AddOp(OP_Pop, 1, 0, NoText);
    }
    ExprCode(v, ff, rest.els);
    Assoc2(o, if ofBase then [Ins(OP_Pop, 1, 0)] else [], Code(ff, rest.els, |o| + Flag(ofBase)));
  }

  lemma LabelOpen(a: seq<int>, b: seq<int>, x: int)
    requires LabelsKept(a, b) && x < 0 && -1 - x < |a| && a[-1 - x] == -1
    ensures -1 - x < |b| && b[-1 - x] == -1
  {
    assert b[..|a|][-1 - x] == a[-1 - x];
  }

  lemma OneWhen(ff: int, ws: Whens, o: seq<Op>, end: int, ofBase: bool)
    requires ws.When?
    ensures var c := o + (WhenHead(ff, ws.test, ws.then_, |o|, ofBase) + [Ins(OP_Goto, 0, end)]);
      c + CodeWhens(ff, ws.rest, |c|, end, ofBase) == o + CodeWhens(ff, ws, |o|, end, ofBase)
  {
    var h := WhenHead(ff, ws.test, ws.then_, |o|, ofBase) + [Ins(OP_Goto, 0, end)];
    Assoc2(o, h, CodeWhens(ff, ws.rest, |o| + |h|, end, ofBase));
  }

  /** One WHEN; its jump over the result is aimed when the result's end is known. */
  method WhenCode(v: Vdbe, ff: int, ws: Whens, end: int, ofBase: bool)
    requires v.Valid() && ws.When? && end < 0 && -1 - end < |v.aLabel| && v.aLabel[-1 - end] == -1
    modifies v
    ensures v.Valid() && LabelsKept(old(v.aLabel), v.aLabel)
    ensures v.aOp == old(v.aOp) + (WhenHead(ff, ws.test, ws.then_, |old(v.aOp)|, ofBase) + [Ins(OP_Goto, 0, end)])
    decreases ws, 2
  {
    ghost var o, labels := v.aOp, v.aLabel;
    ExprCode(v, ff, ws.test);
    var jumpInst := WhenTest(v, ofBase);
    ExprCode(v, ff, ws.then_);
    LabelOpen(labels, v.aLabel, end);
    var _ := v.AddOp(OP_Goto, 0, end, NoText);
    ghost var code := v.aOp;
    v.ChangeP2(jumpInst, |v.aOp|);
    WhenAimed(ff, ws, o, end, ofBase, code);
  }

  /** The test of a WHEN, its jump not aimed yet. */
  method WhenTest(v: Vdbe, ofBase: bool) returns (jumpInst: nat)
    requires v.Valid()
    modifies v
    ensures v.Valid() && v.aLabel == old(v.aLabel) && jumpInst == |old(v.aOp)| + Flag(ofBase)
    ensures v.aOp == old(v.aOp) + if ofBase then TestOf(0) else [Ins(OP_IfNot, 1, 0)]
  {
    if ofBase {
      var _ := v.AddOp(OP_Dup, 1, 1, NoText);
      jumpInst := v.AddOp(OP_Cmp(false, Ne), 1, 0, NoText);
      var _ := v.AddOp(OP_Pop, 1, 0, NoText);
    } else {
      jumpInst := v.AddOp(OP_IfNot, 1, 0, NoText);
    }
  }

  lemma WhenAimed(ff: int, ws: Whens, o: seq<Op>, end: int, ofBase: bool, code: seq<Op>)
    requires ws.When?
    requires var w := Code(ff, ws.test, |o|); var test := if ofBase then TestOf(0) else [Ins(OP_IfNot, 1, 0)];
      code == o + w + test + Code(ff, ws.then_, |o| + |w| + |test|) + [Ins(OP_Goto, 0, end)]
    ensures var j := |o| + Size(ws.test) + Flag(ofBase);
      && j < |code|
      && code[j := code[j].(p2 := |code|)] == o + (WhenHead(ff, ws.test, ws.then_, |o|, ofBase) + [Ins(OP_Goto, 0, end)])
  {
    var a := |o| + Size(ws.test) + if ofBase then 3 else 1;
    var w, t, go := Code(ff, ws.test, |o|), Code(ff, ws.then_, a), [Ins(OP_Goto, 0, end)];
    if ofBase {
      AimBase(o, w, t, go, code);
    } else {
      AimPlain(o, w, t, go, code);
    }
  }

  lemma AimBase(o: seq<Op>, w: seq<Op>, t: seq<Op>, go: seq<Op>, code: seq<Op>)
    requires code == o + w + TestOf(0) + t + go
    ensures var j := |o| + |w| + 1;
      code[j := code[j].(p2 := |code|)] == o + (w + TestOf(|code|) + t + go)
  {
    AimInside(o, w, TestOf(0), t, go, 1, code, TestOf(|code|));
  }

  lemma AimPlain(o: seq<Op>, w: seq<Op>, t: seq<Op>, go: seq<Op>, code: seq<Op>)
    requires code == o + w + [Ins(OP_IfNot, 1, 0)] + t + go
    ensures var j := |o| + |w|;
      code[j := code[j].(p2 := |code|)] == o + (w + [Ins(OP_IfNot, 1, |code|)] + t + go)
  {
    AimInside(o, w, [Ins(OP_IfNot, 1, 0)], t, go, 0, code, [Ins(OP_IfNot, 1, |code|)]);
  }

  lemma AimInside(o: seq<Op>, w: seq<Op>, test: seq<Op>, t: seq<Op>, go: seq<Op>, i: nat, code: seq<Op>, aimed: seq<Op>)
    requires code == o + w + test + t + go && i < |test| && aimed == test[i := test[i].(p2 := |code|)]
    ensures var j := |o| + |w| + i;
      code[j := code[j].(p2 := |code|)] == o + (w + aimed + t + go)
  {
    UpdateInside(o + w, test, t + go, i, test[i].(p2 := |code|));
    assert code == (o + w) + test + (t + go);
  }

  lemma UpdateInside<T>(a: seq<T>, b: seq<T>, c: seq<T>, i: nat, x: T)
    requires i < |b|
    ensures (a + b + c)[|a| + i] == b[i] && (a + b + c)[|a| + i := x] == a + b[i := x] + c
  {}

  // ---------------------------------------------------------------- conditions

  /** sqliteExprIfTrue: code that jumps to dest if the expression is true, and on NULL if jumpIfNull is set. */
  method ExprIfTrue(v: Vdbe, ff: int, e: Expr, dest: int, jumpIfNull: bool)
    requires v.Valid() && -1 - dest < |v.aLabel|
    modifies v
    ensures v.Valid() && LabelsKept(old(v.aLabel), v.aLabel)
    ensures v.aOp == old(v.aOp) + CodeTrue(ff, e, |old(v.aOp)|, Resolve(old(v.aLabel), dest), jumpIfNull)
    decreases e, 1
  {
    match e
    case And(_, _) => AndIfTrue(v, ff, e, dest, jumpIfNull);
    case Or(_, _) => OrIfTrue(v, ff, e, dest, jumpIfNull);
    case Not(l) => ExprIfFalse(v, ff, l, dest, jumpIfNull);
    case Compare(op, _, _) => TwoCode(v, ff, e, OP_Cmp(TextCompare(ff, e), op), Flag(jumpIfNull), dest);
    case IsNull(l) => TestCode(v, ff, l, OP_IsNull, 1, dest);
    case NotNull(l) => TestCode(v, ff, l, OP_NotNull, 1, dest);
    case In(_, _) => InJumpCode(v, ff, e, true, dest, jumpIfNull);
    case Between(_, _, _) => BetweenIfTrue(v, ff, e, dest, jumpIfNull);
    case _ => TestCode(v, ff, e, OP_If, Flag(jumpIfNull), dest);
  }

  /** sqliteExprIfFalse: code that jumps to dest if the expression is false, and on NULL if jumpIfNull is set. */
  method ExprIfFalse(v: Vdbe, ff: int, e: Expr, dest: int, jumpIfNull: bool)
    requires v.Valid() && -1 - dest < |v.aLabel|
    modifies v
    ensures v.Valid() && LabelsKept(old(v.aLabel), v.aLabel)
    ensures v.aOp == old(v.aOp) + CodeFalse(ff, e, |old(v.aOp)|, Resolve(old(v.aLabel), dest), jumpIfNull)
    decreases e, 1
  {
    match e
    case And(_, _) => AndIfFalse(v, ff, e, dest, jumpIfNull);
    case Or(_, _) => OrIfFalse(v, ff, e, dest, jumpIfNull);
    case Not(l) => ExprIfTrue(v, ff, l, dest, jumpIfNull);
    case Compare(op, _, _) => TwoCode(v, ff, e, OP_Cmp(TextCompare(ff, e), Negated(op)), Flag(jumpIfNull), dest);
    case IsNull(l) => TestCode(v, ff, l, OP_NotNull, 1, dest);
    case NotNull(l) => TestCode(v, ff, l, OP_IsNull, 1, dest);
    case In(_, _) => InJumpCode(v, ff, e, false, dest, jumpIfNull);
    case Between(_, _, _) => BetweenIfFalse(v, ff, e, dest, jumpIfNull);
    case _ => TestCode(v, ff, e, OP_IfNot, Flag(jumpIfNull), dest);
  }

  lemma PatchedTail(o: seq<Op>, a: seq<Op>, b: seq<Op>, a2: seq<Op>, b2: seq<Op>, x: int, addr: int)
    requires Free(o, x) && Patched(a, x, addr) == a2 && Patched(b, x, addr) == b2
    ensures Patched(o + a + b, x, addr) == o + (a2 + b2)
  {
    Assoc2(o, a, b);
    TailPatched(o, a + b, x, addr);
    PatchedConcat(a, b, x, addr);
  }

  /** The first operand may decide: then control goes behind the second. */
  method AndIfTrue(v: Vdbe, ff: int, e: Expr, dest: int, jumpIfNull: bool)
    requires v.Valid() && -1 - dest < |v.aLabel| && e.And?
    modifies v
    ensures v.Valid() && LabelsKept(old(v.aLabel), v.aLabel)
    ensures v.aOp == old(v.aOp) + CodeTrue(ff, e, |old(v.aOp)|, Resolve(old(v.aLabel), dest), jumpIfNull)
    decreases e, 0
  {
    ghost var o, labels := v.aOp, v.aLabel;
    ghost var d := Resolve(v.aLabel, dest);
    var d2 := v.MakeLabel();
    ghost var labels1 := v.aLabel;
    assert Resolve(labels1, d2) == d2;
    ExprIfFalse(v, ff, e.left, d2, !jumpIfNull);
    LabelOpen(labels1, v.aLabel, d2);
    ResolveKept(labels, v.aLabel, dest);
    ghost var labels2 := v.aLabel;
    ExprIfTrue(v, ff, e.right, dest, jumpIfNull);
    LabelOpen(labels2, v.aLabel, d2);
    AndTrueResolved(ff, e, o, d, jumpIfNull, d2);
    v.ResolveLabel(d2);
  }

  lemma AndTrueResolved(ff: int, e: Expr, o: seq<Op>, d: int, jumpIfNull: bool, x: int)
    requires e.And? && x < 0 && d != x && Free(o, x)
    ensures var first := o + CodeFalse(ff, e.left, |o|, x, !jumpIfNull);
      var code := first + CodeTrue(ff, e.right, |first|, d, jumpIfNull);
      Patched(code, x, |code|) == o + CodeTrue(ff, e, |o|, d, jumpIfNull)
  {
    var at, mid, end := |o|, |o| + SizeFalse(e.left), |o| + SizeTrue(e);
    var a, b := CodeFalse(ff, e.left, at, x, !jumpIfNull), CodeTrue(ff, e.right, mid, d, jumpIfNull);
    FalseSize(ff, e.left, at, x, !jumpIfNull);
    TrueSize(ff, e.right, mid, d, jumpIfNull);
    FalsePatched(ff, e.left, at, x, !jumpIfNull, x, end);
    TruePatched(ff, e.right, mid, d, jumpIfNull, x, end);
    PatchedTail(o, a, b, CodeFalse(ff, e.left, at, end, !jumpIfNull), b, x, end);
  }

  method OrIfTrue(v: Vdbe, ff: int, e: Expr, dest: int, jumpIfNull: bool)
    requires v.Valid() && -1 - dest < |v.aLabel| && e.Or?
    modifies v
    ensures v.Valid() && LabelsKept(old(v.aLabel), v.aLabel)
    ensures v.aOp == old(v.aOp) + CodeTrue(ff, e, |old(v.aOp)|, Resolve(old(v.aLabel), dest), jumpIfNull)
    decreases e, 0
  {
    ghost var o, at, labels := v.aOp, |v.aOp|, v.aLabel;
    ghost var d := Resolve(v.aLabel, dest);
    ExprIfTrue(v, ff, e.left, dest, jumpIfNull);
    ResolveKept(labels, v.aLabel, dest);
    TrueSize(ff, e.left, at, d, jumpIfNull);
    ExprIfTrue(v, ff, e.right, dest, jumpIfNull);
    Assoc2(o, CodeTrue(ff, e.left, at, d, jumpIfNull), CodeTrue(ff, e.right, at + SizeTrue(e.left), d, jumpIfNull));
  }

  method AndIfFalse(v: Vdbe, ff: int, e: Expr, dest: int, jumpIfNull: bool)
    requires v.Valid() && -1 - dest < |v.aLabel| && e.And?
    modifies v
    ensures v.Valid() && LabelsKept(old(v.aLabel), v.aLabel)
    ensures v.aOp == old(v.aOp) + CodeFalse(ff, e, |old(v.aOp)|, Resolve(old(v.aLabel), dest), jumpIfNull)
    decreases e, 0
  {
    ghost var o, at, labels := v.aOp, |v.aOp|, v.aLabel;
    ghost var d := Resolve(v.aLabel, dest);
    ExprIfFalse(v, ff, e.left, dest, jumpIfNull);
    ResolveKept(labels, v.aLabel, dest);
    FalseSize(ff, e.left, at, d, jumpIfNull);
    ExprIfFalse(v, ff, e.right, dest, jumpIfNull);
    Assoc2(o, CodeFalse(ff, e.left, at, d, jumpIfNull), CodeFalse(ff, e.right, at + SizeFalse(e.left), d, jumpIfNull));
  }

  /** The first operand may decide: then control goes behind the second. */
  method OrIfFalse(v: Vdbe, ff: int, e: Expr, dest: int, jumpIfNull: bool)
    requires v.Valid() && -1 - dest < |v.aLabel| && e.Or?
    modifies v
    ensures v.Valid() && LabelsKept(old(v.aLabel), v.aLabel)
    ensures v.aOp == old(v.aOp) + CodeFalse(ff, e, |old(v.aOp)|, Resolve(old(v.aLabel), dest), jumpIfNull)
    decreases e, 0
  {
    ghost var o, labels := v.aOp, v.aLabel;
    ghost var d := Resolve(v.aLabel, dest);
    var d2 := v.MakeLabel();
    ghost var labels1 := v.aLabel;
    assert Resolve(labels1, d2) == d2;
    ExprIfTrue(v, ff, e.left, d2, !jumpIfNull);
    LabelOpen(labels1, v.aLabel, d2);
    ResolveKept(labels, v.aLabel, dest);
    ghost var labels2 := v.aLabel;
    ExprIfFalse(v, ff, e.right, dest, jumpIfNull);
    LabelOpen(labels2, v.aLabel, d2);
    OrFalseResolved(ff, e, o, d, jumpIfNull, d2);
    v.ResolveLabel(d2);
  }

  lemma OrFalseResolved(ff: int, e: Expr, o: seq<Op>, d: int, jumpIfNull: bool, x: int)
    requires e.Or? && x < 0 && d != x && Free(o, x)
    ensures var first := o + CodeTrue(ff, e.left, |o|, x, !jumpIfNull);
      var code := first + CodeFalse(ff, e.right, |first|, d, jumpIfNull);
      Patched(code, x, |code|) == o + CodeFalse(ff, e, |o|, d, jumpIfNull)
  {
    var at, mid, end := |o|, |o| + SizeTrue(e.left), |o| + SizeFalse(e);
    var a, b := CodeTrue(ff, e.left, at, x, !jumpIfNull), CodeFalse(ff, e.right, mid, d, jumpIfNull);
    TrueSize(ff, e.left, at, x, !jumpIfNull);
    FalseSize(ff, e.right, mid, d, jumpIfNull);
    TruePatched(ff, e.left, at, x, !jumpIfNull, x, end);
    FalsePatched(ff, e.right, mid, d, jumpIfNull, x, end);
    PatchedTail(o, a, b, CodeTrue(ff, e.left, at, end, !jumpIfNull), b, x, end);
  }

  /** The value's code, then one jump on it. */
  method TestCode(v: Vdbe, ff: int, e: Expr, op: Opcode, p1: int, dest: int)
    requires v.Valid() && -1 - dest < |v.aLabel|
    modifies v
    ensures v.Valid() && LabelsKept(old(v.aLabel), v.aLabel)
    ensures v.aOp == old(v.aOp) + (Code(ff, e, |old(v.aOp)|) + [Ins(op, p1, Resolve(old(v.aLabel), dest))])
  {
    ghost var o, labels := v.aOp, v.aLabel;
    ExprCode(v, ff, e);
    ResolveKept(labels, v.aLabel, dest);
    var _ := v.AddOp(op, p1, dest, NoText);
    Assoc2(o, Code(ff, e, |o|), [Ins(op, p1, Resolve(labels, dest))]);
  }

  method InJumpCode(v: Vdbe, ff: int, e: Expr, found: bool, dest: int, jumpIfNull: bool)
    requires v.Valid() && -1 - dest < |v.aLabel| && e.In?
    modifies v
    ensures v.Valid() && LabelsKept(old(v.aLabel), v.aLabel)
    ensures var d := Resolve(old(v.aLabel), dest);
      v.aOp == old(v.aOp) + CodeInJump(ff, e.left, |old(v.aOp)|, Look(e.iSet, found, d), d, jumpIfNull)
  {
    ghost var o, labels := v.aOp, v.aLabel;
    ExprCode(v, ff, e.left);
    ResolveKept(labels, v.aLabel, dest);
    var addr := |v.aOp|;
    ghost var before := v.aOp;
    var _ := v.AddOp(OP_NotNull, -1, addr + 3, NoText);
    var _ := v.AddOp(OP_Pop, 1, 0, NoText);
    var _ := v.AddOp(OP_Goto, 0, if jumpIfNull then dest else addr + 4, NoText);
    var _ := v.AddOp(if found then OP_SetFound else OP_SetNotFound, e.iSet, dest, NoText);
    assert v.aOp == before + InJumpTail(e.iSet, found, addr, Resolve(labels, dest), jumpIfNull);
    Assoc2(o, Code(ff, e.left, |o|), InJumpTail(e.iSet, found, addr, Resolve(labels, dest), jumpIfNull));
  }

  method BetweenIfTrue(v: Vdbe, ff: int, e: Expr, dest: int, jumpIfNull: bool)
    requires v.Valid() && -1 - dest < |v.aLabel| && e.Between?
    modifies v
    ensures v.Valid() && LabelsKept(old(v.aLabel), v.aLabel)
    ensures v.aOp == old(v.aOp) + CodeTrue(ff, e, |old(v.aOp)|, Resolve(old(v.aLabel), dest), jumpIfNull)
  {
    ghost var o, at, labels := v.aOp, |v.aOp|, v.aLabel;
    ghost var d := Resolve(v.aLabel, dest);
    ghost var head := Code(ff, e.left, at) + [Ins(OP_Dup, 0, 0)] + Code(ff, e.lo, at + Size(e.left) + 1);
    var addr := BetweenBelowLo(v, ff, e, jumpIfNull);
    ResolveKept(labels, v.aLabel, dest);
    ghost var before := v.aOp;
    var _ := v.AddOp(OP_Cmp(false, Le), Flag(jumpIfNull), dest, NoText);
    var _ := v.AddOp(OP_Integer, 0, 0, NoText);
    ghost var target := |v.aOp|;
    v.ChangeP2(addr, |v.aOp|);
    ghost var aimed := v.aOp;
    var _ := v.AddOp(OP_Pop, 1, 0, NoText);
    BetweenAimed(ff, e, o, head, d, jumpIfNull, before, aimed);
  }

  /** The head, a jump not aimed yet if the value is below lo, and hi. */
  method BetweenBelowLo(v: Vdbe, ff: int, e: Expr, jumpIfNull: bool) returns (addr: int)
    requires v.Valid() && e.Between?
    modifies v
    ensures v.Valid() && LabelsKept(old(v.aLabel), v.aLabel)
    ensures var o, at := old(v.aOp), |old(v.aOp)|;
      var head := Code(ff, e.left, at) + [Ins(OP_Dup, 0, 0)] + Code(ff, e.lo, at + Size(e.left) + 1);
      && addr == at + |head|
      && v.aOp == o + head + [Ins(OP_Cmp(false, Lt), Flag(!jumpIfNull), 0)] + Code(ff, e.hi, addr + 1)
  {
    BetweenHeadCode(v, ff, e);
    addr := v.AddOp(OP_Cmp(false, Lt), Flag(!jumpIfNull), 0, NoText);
    ExprCode(v, ff, e.hi);
  }

  /** The jump over the second comparison, aimed at the instruction that drops the value. */
  lemma BetweenAimed(ff: int, e: Expr, o: seq<Op>, head: seq<Op>, d: int, jumpIfNull: bool, before: seq<Op>, aimed: seq<Op>)
    requires e.Between?
    requires head == Code(ff, e.left, |o|) + [Ins(OP_Dup, 0, 0)] + Code(ff, e.lo, |o| + Size(e.left) + 1)
    requires var a := |o| + |head|;
      before == o + head + [Ins(OP_Cmp(false, Lt), Flag(!jumpIfNull), 0)] + Code(ff, e.hi, a + 1)
    requires var code := before + [Ins(OP_Cmp(false, Le), Flag(jumpIfNull), d)] + [Ins(OP_Integer, 0, 0)]; var a := |o| + |head|;
      a < |code| && aimed == code[a := code[a].(p2 := |code|)]
    ensures aimed + [Ins(OP_Pop, 1, 0)] == o + CodeTrue(ff, e, |o|, d, jumpIfNull)
  {
    var a := |o| + |head|;
    AimedPieces(o, head, Ins(OP_Cmp(false, Lt), Flag(!jumpIfNull), 0), Code(ff, e.hi, a + 1),
                Ins(OP_Cmp(false, Le), Flag(jumpIfNull), d), Ins(OP_Integer, 0, 0), Ins(OP_Pop, 1, 0), before, aimed);
  }

  lemma AimedPieces(o: seq<Op>, head: seq<Op>, y: Op, hi: seq<Op>, a: Op, b: Op, c: Op, before: seq<Op>, aimed: seq<Op>)
    requires before == o + head + [y] + hi
    requires var code := before + [a] + [b]; var j := |o| + |head|;
      j < |code| && aimed == code[j := code[j].(p2 := |code|)]
    ensures aimed + [c] == o + (head + [y.(p2 := |before| + 2)] + hi + [a, b, c])
  {
    var x := y.(p2 := |before| + 2);
    SpliceOne(o + head, y, x, hi, a, b, c);
    AssocRow(o, head, [x], hi, [a, b, c]);
  }

  lemma AssocRow<T>(o: seq<T>, a: seq<T>, b: seq<T>, c: seq<T>, d: seq<T>)
    ensures o + a + b + c + d == o + (a + b + c + d)
    ensures (o + a) + (b + c + d) == o + (a + b + c + d)
  {}

  lemma SpliceOne<T>(p: seq<T>, y: T, x: T, hi: seq<T>, a: T, b: T, c: T)
    ensures var code := p + [y] + hi + [a] + [b]; |p| < |code| && code[|p|] == y && code[|p| := x] + [c] == p + [x] + hi + [a, b, c]
  {}

  method BetweenIfFalse(v: Vdbe, ff: int, e: Expr, dest: int, jumpIfNull: bool)
    requires v.Valid() && -1 - dest < |v.aLabel| && e.Between?
    modifies v
    ensures v.Valid() && LabelsKept(old(v.aLabel), v.aLabel)
    ensures v.aOp == old(v.aOp) + CodeFalse(ff, e, |old(v.aOp)|, Resolve(old(v.aLabel), dest), jumpIfNull)
  {
    ghost var o, at, labels := v.aOp, |v.aOp|, v.aLabel;
    ghost var d := Resolve(v.aLabel, dest);
    BetweenHeadCode(v, ff, e);
    ResolveKept(labels, v.aLabel, dest);
    ghost var head := Code(ff, e.left, at) + [Ins(OP_Dup, 0, 0)] + Code(ff, e.lo, at + Size(e.left) + 1);
    ghost var labels1, before := v.aLabel, v.aOp;
    var addr := |v.aOp|;
    var _ := v.AddOp(OP_Cmp(false, Ge), Flag(!jumpIfNull), addr + 3, NoText);
    var _ := v.AddOp(OP_Pop, 1, 0, NoText);
    var _ := v.AddOp(OP_Goto, 0, dest, NoText);
    assert v.aOp == before + BetweenFalseFirst(addr, d, jumpIfNull);
    ExprCode(v, ff, e.hi);
    ResolveKept(labels1, v.aLabel, dest);
    var _ := v.AddOp(OP_Cmp(false, Gt), Flag(jumpIfNull), dest, NoText);
    Assoc3(before, BetweenFalseFirst(addr, d, jumpIfNull), Code(ff, e.hi, addr + 3), [Ins(OP_Cmp(false, Gt), Flag(jumpIfNull), d)]);
    BetweenFalseIs(ff, e, o, head, d, jumpIfNull);
  }

  lemma BetweenFalseIs(ff: int, e: Expr, o: seq<Op>, head: seq<Op>, d: int, jumpIfNull: bool)
    requires e.Between?
    requires head == Code(ff, e.left, |o|) + [Ins(OP_Dup, 0, 0)] + Code(ff, e.lo, |o| + Size(e.left) + 1)
    ensures var a := |o| + |head|;
      (o + head) + (BetweenFalseFirst(a, d, jumpIfNull) + Code(ff, e.hi, a + 3) + [Ins(OP_Cmp(false, Gt), Flag(jumpIfNull), d)])
      == o + CodeFalse(ff, e, |o|, d, jumpIfNull)
  {
    var a := |o| + |head|;
    AssocRow(o, head, BetweenFalseFirst(a, d, jumpIfNull), Code(ff, e.hi, a + 3), [Ins(OP_Cmp(false, Gt), Flag(jumpIfNull), d)]);
  }

  // ---------------------------------------------------------------- the generated program

  /**
   * A condition's code with an open label, in any program in which the label is later resolved:
   * the program jumps to the label's address exactly when it should, and the stack is as before.
   */
  lemma ResolvedJumps(M: Machine, ff: int, o: seq<Op>, e: Expr, x: int, jumpIfNull: bool, rest: seq<Op>, addr: int, s: Stack)
    requires x < 0 < addr
    ensures var prog := Patched(o + CodeTrue(ff, e, |o|, x, jumpIfNull) + rest, x, addr);
      JumpsOnTrue(M, ff, prog, e, |o|, addr, jumpIfNull, s)
    ensures var prog := Patched(o + CodeFalse(ff, e, |o|, x, jumpIfNull) + rest, x, addr);
      JumpsOnFalse(M, ff, prog, e, |o|, addr, jumpIfNull, s)
  {
    TruePatched(ff, e, |o|, x, jumpIfNull, x, addr);
    FalsePatched(ff, e, |o|, x, jumpIfNull, x, addr);
    PatchedInside(o, CodeTrue(ff, e, |o|, x, jumpIfNull), rest, x, addr);
    PatchedInside(o, CodeFalse(ff, e, |o|, x, jumpIfNull), rest, x, addr);
    TrueRuns(M, ff, Patched(o + CodeTrue(ff, e, |o|, x, jumpIfNull) + rest, x, addr), e, |o|, addr, jumpIfNull, s);
    FalseRuns(M, ff, Patched(o + CodeFalse(ff, e, |o|, x, jumpIfNull) + rest, x, addr), e, |o|, addr, jumpIfNull, s);
  }

  lemma PatchedInside(a: seq<Op>, b: seq<Op>, c: seq<Op>, x: int, addr: int)
    ensures Has(Patched(a + b + c, x, addr), |a|, Patched(b, x, addr))
  {
    PatchedConcat(a + b, c, x, addr);
    PatchedConcat(a, b, x, addr);
  }

  /** The code of condition e with target dest, wherever it stands, jumps exactly when it should. */
  ghost predicate JumpsRight(M: Machine, ff: int, prog: seq<Op>, e: Expr, at: int, dest: int, jumpIfNull: bool, s: Stack) {
    && (Has(prog, at, CodeTrue(ff, e, at, dest, jumpIfNull)) ==> JumpsOnTrue(M, ff, prog, e, at, dest, jumpIfNull, s))
    && (Has(prog, at, CodeFalse(ff, e, at, dest, jumpIfNull)) ==> JumpsOnFalse(M, ff, prog, e, at, dest, jumpIfNull, s))
  }

  /**
   * The conditions jump right for every expression exactly if the target is not address 0: there a comparison has no
   * target at all, pushes its result, and never jumps. A label is never resolved to 0, since the code that jumps to it
   * comes first.
   */
  lemma JumpsRightUnlessToZero(M: Machine, dest: nat)
    ensures (forall ff, prog, e, at, jumpIfNull, s :: JumpsRight(M, ff, prog, e, at, dest, jumpIfNull, s)) <==> dest > 0
  {
    if dest > 0 {
      forall ff, prog, e, at, jumpIfNull, s ensures JumpsRight(M, ff, prog, e, at, dest, jumpIfNull, s) {
        if Has(prog, at, CodeTrue(ff, e, at, dest, jumpIfNull)) { TrueRuns(M, ff, prog, e, at, dest, jumpIfNull, s); }
        if Has(prog, at, CodeFalse(ff, e, at, dest, jumpIfNull)) { FalseRuns(M, ff, prog, e, at, dest, jumpIfNull, s); }
      }
    } else {
      var e := Compare(Eq, Integer(1, "1"), Integer(1, "1"));
      var code := CodeTrue(4, e, 1, 0, false);
      var prog := [Ins(OP_Pop, 0, 0)] + code;
      NoJumpToZero(M, 4);
      assert prog[1..1 + |code|] == code;
      assert !JumpsRight(M, 4, prog, e, 1, 0, false, Empty);
    }
  }

  lemma NoJumpToZero(M: Machine, ff: int)
    ensures var e := Compare(Eq, Integer(1, "1"), Integer(1, "1"));
      var prog := [Ins(OP_Pop, 0, 0)] + CodeTrue(ff, e, 1, 0, false);
      Truth3(M, ff, e) == True && !JumpsOnTrue(M, ff, prog, e, 1, 0, false, Empty)
  {
    var e, one := Compare(Eq, Integer(1, "1"), Integer(1, "1")), Num(1, "1");
    var prog := [Ins(OP_Pop, 0, 0)] + CodeTrue(ff, e, 1, 0, false);
    var s1, s2, s3 := State(1, Empty), State(2, Push(one, Empty)), State(3, Push(one, Push(one, Empty)));
    var s4 := State(4, Push(Num(1, ""), Empty));
    assert prog == [Ins(OP_Pop, 0, 0), Op(OP_Integer, 1, 0, P3("1")), Op(OP_Integer, 1, 0, P3("1")), Ins(OP_Cmp(false, Eq), 0, 0)];
    assert Step(M, prog, s1) == Some(s2) && Step(M, prog, s2) == Some(s3) && Step(M, prog, s3) == Some(s4) && Step(M, prog, s4) == None;
    forall n: nat ensures Run(M, prog, s1, n) != Some(State(0, Empty)) {
      if n >= 3 {
        assert Run(M, prog, s1, n) == Run(M, prog, s2, n - 1) == Run(M, prog, s3, n - 2) == Run(M, prog, s4, n - 3);
      } else if n == 2 {
        assert Run(M, prog, s1, n) == Run(M, prog, s2, 1) == Run(M, prog, s3, 0);
      } else if n == 1 {
        assert Run(M, prog, s1, n) == Run(M, prog, s2, 0);
      }
    }
  }
}
