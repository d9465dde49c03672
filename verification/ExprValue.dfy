/** SQL expressions and their values under three-valued logic. */
module ExprValue {

  /** A stack element: NULL, an integer with its text form if it has one, or text. */
  datatype Value = Null | Num(i: int, rep: string) | Text(z: string)

  datatype CmpOp = Eq | Ne | Lt | Le | Gt | Ge

  datatype ArithOp = Plus | Minus | Star | Slash | Rem | BitAnd | BitOr

  datatype Expr =
    | Column(iTable: int, iColumn: int, isText: bool)
    | Integer(n: int, z: string)
    | Float(z: string)
    | Str(z: string)
    | NullLiteral
    | Variable(k: int)
    | Arith(aop: ArithOp, left: Expr, right: Expr)
    | Compare(cop: CmpOp, left: Expr, right: Expr)
    | And(left: Expr, right: Expr)
    | Or(left: Expr, right: Expr)
    | Not(left: Expr)
    | IsNull(left: Expr)
    | NotNull(left: Expr)
    | In(left: Expr, iSet: int)
    | Between(left: Expr, lo: Expr, hi: Expr)
    | CaseOf(left: Expr, whens: Whens)
    | CaseWhen(whens: Whens)

  /** The WHEN ... THEN pairs of a CASE, in order, and its ELSE; a missing ELSE is NULL. */
  datatype Whens = Else(els: Expr) | When(test: Expr, then_: Expr, rest: Whens)

  /** What the virtual machine is run on: the current row, bound variables, value sets, and the value operations left open. */
  datatype Machine = Machine(
    column: (int, int) -> Value,
    recno: int -> Value,
    variable: int -> Value,
    inSet: (int, Value) -> bool,
    atoi: Value -> int,
    collate: (bool, Value, Value) -> int,
    arith: (ArithOp, Value, Value) -> Value)

  // ---------------------------------------------------------------- section 8.12 of SQL-92

  datatype Bool3 = True | False | Unknown

  function And3(a: Bool3, b: Bool3): Bool3 {
    if a == False || b == False then False else if a == True && b == True then True else Unknown
  }

  function Or3(a: Bool3, b: Bool3): Bool3 {
    if a == True || b == True then True else if a == False && b == False then False else Unknown
  }

  function Not3(a: Bool3): Bool3 {
    match a
    case True => False
    case False => True
    case Unknown => Unknown
  }

  function IntOf(M: Machine, v: Value): int {
    if v.Num? then v.i else M.atoi(v)
  }

  /** The truth of a value: an integer is true unless it is zero. */
  function TruthOf(M: Machine, v: Value): Bool3 {
    if v == Null then Unknown else if IntOf(M, v) == 0 then False else True
  }

  function BoolValue(b: Bool3): Value {
    match b
    case True => Num(1, "")
    case False => Num(0, "")
    case Unknown => Null
  }

  // ---------------------------------------------------------------- comparison

  /** Negative, zero or positive: numbers by difference, the rest as the machine collates them. */
  function CompareValues(M: Machine, text: bool, x: Value, y: Value): int {
    if !text && x.Num? && y.Num? then x.i - y.i else M.collate(text, x, y)
  }

  /** A 32-bit integer. */
  predicate IsInt32(x: int) {
    -0x8000_0000 <= x < 0x8000_0000
  }

  /** An integer cut down to 32 bits. */
  function Wrap32(x: int): int {
    (x + 0x8000_0000) % 0x1_0000_0000 - 0x8000_0000
  }

  /** Cut down to 32 bits, a difference gives all comparisons right if and only if it fits. */
  lemma DifferenceAgrees(x: int, y: int)
    requires IsInt32(x) && IsInt32(y)
    ensures (forall op :: ComparesRight(op, x, y)) <==> IsInt32(x - y)
  {
    if !IsInt32(x - y) {
      assert !ComparesRight(Lt, x, y);
    }
  }

  predicate ComparesRight(op: CmpOp, x: int, y: int) {
    Holds(op, Wrap32(x - y)) == Holds(op, x - y)
  }

  /** 2000000000 comes out smaller than -2000000000. */
  lemma DifferenceWraps()
    ensures Holds(Lt, Wrap32(2000000000 - -2000000000)) && !Holds(Lt, 2000000000 - -2000000000)
  {}

  predicate Holds(op: CmpOp, c: int) {
    match op
    case Eq => c == 0
    case Ne => c != 0
    case Lt => c < 0
    case Le => c <= 0
    case Gt => c > 0
    case Ge => c >= 0
  }

  function Truth(b: bool): Bool3 {
    if b then True else False
  }

  /** The comparison predicate: unknown if either side is NULL. */
  function Compare3(M: Machine, text: bool, op: CmpOp, x: Value, y: Value): Bool3 {
    if x == Null || y == Null then Unknown else Truth(Holds(op, CompareValues(M, text, x, y)))
  }

  function Negated(op: CmpOp): CmpOp {
    match op
    case Lt => Ge
    case Le => Gt
    case Gt => Le
    case Ge => Lt
    case Ne => Eq
    case Eq => Ne
  }

  /** The opposite comparison is the negation, and unknown on NULL alike. */
  lemma NegatedIsNot(M: Machine, text: bool, op: CmpOp, x: Value, y: Value)
    ensures Compare3(M, text, Negated(op), x, y) == Not3(Compare3(M, text, op, x, y))
  {}

  // ---------------------------------------------------------------- collation type of an expression

  /** Whether an expression compares as text. */
  predicate IsText(e: Expr)
    decreases e
  {
    match e
    case Column(_, _, t) => t
    case Str(_) => true
    case NullLiteral => true
    case Variable(_) => true
    case Compare(_, l, r) => IsText(l) && IsText(r)
    case CaseOf(_, ws) => AllText(ws)
    case CaseWhen(ws) => AllText(ws)
    case _ => false
  }

  predicate AllText(ws: Whens)
    decreases ws
  {
    if ws.Else? then IsText(ws.els) else IsText(ws.then_) && AllText(ws.rest)
  }

  /** Comparisons use text collation from file format 4 on, if both sides are text. */
  predicate TextCompare(ff: int, e: Expr) {
    ff >= 4 && IsText(e)
  }

  // ---------------------------------------------------------------- values

  function Eval(M: Machine, ff: int, e: Expr): Value
    decreases e
  {
    match e
    case Column(t, c, _) => if c >= 0 then M.column(t, c) else M.recno(t)
    case Integer(n, z) => Num(n, z)
    case Float(z) => Text(z)
    case Str(z) => Text(z)
    case NullLiteral => Null
    case Variable(k) => M.variable(k)
    case Arith(op, l, r) => M.arith(op, Eval(M, ff, l), Eval(M, ff, r))
    case CaseOf(b, ws) => EvalWhensOf(M, ff, Eval(M, ff, b), ws)
    case CaseWhen(ws) => EvalWhens(M, ff, ws)
    case Compare(op, l, r) => BoolValue(Compare3(M, TextCompare(ff, e), op, Eval(M, ff, l), Eval(M, ff, r)))
    case And(l, r) => BoolValue(And3(TruthOf(M, Eval(M, ff, l)), TruthOf(M, Eval(M, ff, r))))
    case Or(l, r) => BoolValue(Or3(TruthOf(M, Eval(M, ff, l)), TruthOf(M, Eval(M, ff, r))))
    case Not(l) => BoolValue(Not3(TruthOf(M, Eval(M, ff, l))))
    case IsNull(l) => BoolValue(Truth(Eval(M, ff, l) == Null))
    case NotNull(l) => BoolValue(Truth(Eval(M, ff, l) != Null))
    case In(l, s) => BoolValue(In3(M, s, Eval(M, ff, l)))
    case Between(x, lo, hi) => BoolValue(Between3(M, Eval(M, ff, x), Eval(M, ff, lo), Eval(M, ff, hi)))
  }

  function In3(M: Machine, s: int, x: Value): Bool3 {
    if x == Null then Unknown else Truth(M.inSet(s, x))
  }

  /** x BETWEEN lo AND hi is x >= lo AND x <= hi, neither of them a text comparison. */
  function Between3(M: Machine, x: Value, lo: Value, hi: Value): Bool3 {
    And3(Compare3(M, false, Ge, x, lo), Compare3(M, false, Le, x, hi))
  }

  /** The first WHEN that is true gives the result. */
  function EvalWhens(M: Machine, ff: int, ws: Whens): Value
    decreases ws
  {
    match ws
    case Else(els) => Eval(M, ff, els)
    case When(w, t, rest) =>
      if TruthOf(M, Eval(M, ff, w)) == True then Eval(M, ff, t) else EvalWhens(M, ff, rest)
  }

  /** The first WHEN equal to the base gives the result. */
  function EvalWhensOf(M: Machine, ff: int, b: Value, ws: Whens): Value
    decreases ws
  {
    match ws
    case Else(els) => Eval(M, ff, els)
    case When(w, t, rest) =>
      if Compare3(M, false, Eq, Eval(M, ff, w), b) == True then Eval(M, ff, t) else EvalWhensOf(M, ff, b, rest)
  }

  /** The truth of an expression. */
  function Truth3(M: Machine, ff: int, e: Expr): Bool3 {
    TruthOf(M, Eval(M, ff, e))
  }

  lemma BoolValueTruth(M: Machine, b: Bool3)
    ensures TruthOf(M, BoolValue(b)) == b
  {}

  // ---------------------------------------------------------------- BETWEEN and the two comparisons

  ghost predicate BetweenAgrees(M: Machine, ff: int, x: Expr, lo: Expr, hi: Expr) {
    Eval(M, ff, Between(x, lo, hi)) == Eval(M, ff, And(Compare(Ge, x, lo), Compare(Le, x, hi)))
  }

  /** BETWEEN is the conjunction of the two comparisons if neither compares as text. */
  lemma BetweenIsAnd(M: Machine, ff: int, x: Expr, lo: Expr, hi: Expr)
    requires !TextCompare(ff, Compare(Ge, x, lo)) && !TextCompare(ff, Compare(Le, x, hi))
    ensures BetweenAgrees(M, ff, x, lo, hi)
  {
    BoolValueTruth(M, Compare3(M, false, Ge, Eval(M, ff, x), Eval(M, ff, lo)));
    BoolValueTruth(M, Compare3(M, false, Le, Eval(M, ff, x), Eval(M, ff, hi)));
  }

  /** A machine that tells text comparisons from others. */
  function Collating(): Machine {
    Machine((t, c) => Null, t => Null, k => Null, (s, x) => false, x => 0, (text, x, y) => if text then 0 else -1, (op, x, y) => Null)
  }

  /**
   * It is the conjunction for all operands exactly in databases before file format 4: from then on >= and <= compare
   * two texts as text, and BETWEEN does not.
   */
  lemma BetweenAgreesBeforeFormat4(ff: int)
    ensures (forall M, x, lo, hi :: BetweenAgrees(M, ff, x, lo, hi)) <==> ff < 4
  {
    if ff < 4 {
      forall M, x, lo, hi ensures BetweenAgrees(M, ff, x, lo, hi) { BetweenIsAnd(M, ff, x, lo, hi); }
    } else {
      var M, a := Collating(), Str("a");
      var ge, le := Compare(Ge, a, a), Compare(Le, a, a);
      assert Eval(M, ff, a) == Text("a");
      assert Eval(M, ff, ge) == Num(1, "") && Eval(M, ff, le) == Num(1, "");
      assert Eval(M, ff, And(ge, le)) == Num(1, "");
      assert Compare3(M, false, Ge, Text("a"), Text("a")) == False;
      assert !BetweenAgrees(M, ff, a, a, a);
    }
  }
}
