/** The virtual machine: the opcodes that compiled expressions use, one step each. */
module VdbeMachine {
  import opened ExprValue
  import opened Wrappers

  datatype Opcode =
    | OP_Goto | OP_Integer | OP_String | OP_Variable | OP_Pop | OP_Dup | OP_Pull | OP_AddImm
    | OP_Column | OP_Recno | OP_Arith(aop: ArithOp) | OP_Cmp(text: bool, cop: CmpOp)
    | OP_And | OP_Or | OP_Not | OP_If | OP_IfNot | OP_IsNull | OP_NotNull | OP_SetFound | OP_SetNotFound

  /** p3 is the text operand; there may be none. */
  datatype Op = Op(opcode: Opcode, p1: int, p2: int, p3: P3)

  datatype P3 = NoText | P3(z: string)

  datatype Stack = Empty | Push(top: Value, below: Stack)

  datatype State = State(pc: int, stack: Stack)

  // ---------------------------------------------------------------- logic tables of the machine

  /** 0 true, 1 false, 2 unknown. */
  function Code3(b: Bool3): nat {
    match b
    case True => 0
    case False => 1
    case Unknown => 2
  }

  const AND_LOGIC: seq<nat> := [0, 1, 2, 1, 1, 1, 2, 1, 2]
  const OR_LOGIC: seq<nat> := [0, 0, 0, 0, 1, 2, 0, 2, 2]

  function FromCode3(n: nat): Value {
    if n == 2 then Null else Num(if n == 0 then 1 else 0, "")
  }

  /** The machine's tables are the truth tables of section 8.12. */
  lemma LogicTables(a: Bool3, b: Bool3)
    ensures Code3(a) * 3 + Code3(b) < 9
    ensures FromCode3(AND_LOGIC[Code3(a) * 3 + Code3(b)]) == BoolValue(And3(a, b))
    ensures FromCode3(OR_LOGIC[Code3(a) * 3 + Code3(b)]) == BoolValue(Or3(a, b))
  {}

  // ---------------------------------------------------------------- one step

  /** What a comparison does with its outcome: jump, or if it has no target push it. */
  function AfterCompare(op: Op, pc: int, b: Bool3, below: Stack): State {
    if op.p2 == 0 then State(pc + 1, Push(BoolValue(b), below))
    else State(if b == True || (b == Unknown && op.p1 != 0) then op.p2 else pc + 1, below)
  }

  function Logic(M: Machine, table: seq<nat>, tos: Value, nos: Value): Value
    requires |table| == 9
  {
    var v1, v2 := Code3(TruthOf(M, tos)), Code3(TruthOf(M, nos));
    LogicTables(TruthOf(M, tos), TruthOf(M, nos));
    FromCode3(table[v1 * 3 + v2])
  }

  /** Effect of an instruction that works on the top of the stack. */
  function StepTop(M: Machine, op: Op, pc: int, tos: Value, below: Stack): Option<State> {
    match op.opcode
    case OP_Not => Some(State(pc + 1, Push(if tos == Null then Null else BoolValue(Truth(IntOf(M, tos) == 0)), below)))
    case OP_AddImm => Some(State(pc + 1, Push(Num(IntOf(M, tos) + op.p1, ""), below)))
    case OP_If => Some(State(if (if tos == Null then op.p1 != 0 else IntOf(M, tos) != 0) then op.p2 else pc + 1, below))
    case OP_IfNot => Some(State(if (if tos == Null then op.p1 != 0 else IntOf(M, tos) == 0) then op.p2 else pc + 1, below))
    case OP_SetFound => Some(State(if M.inSet(op.p1, tos) then op.p2 else pc + 1, below))
    case OP_SetNotFound => Some(State(if !M.inSet(op.p1, tos) then op.p2 else pc + 1, below))
    case OP_IsNull => if op.p1 == 1 then Some(State(if tos == Null then op.p2 else pc + 1, below)) else None
    case OP_NotNull =>
      if op.p1 == 1 then Some(State(if tos != Null then op.p2 else pc + 1, below))
      else if op.p1 == -1 then Some(State(if tos != Null then op.p2 else pc + 1, Push(tos, below)))
      else None
    case _ => None
  }

  /** Effect of an instruction that works on the two top elements. */
  function StepTwo(M: Machine, op: Op, pc: int, tos: Value, nos: Value, below: Stack): Option<State> {
    match op.opcode
    case OP_Cmp(text, c) => Some(AfterCompare(op, pc, Compare3(M, text, c, nos, tos), below))
    case OP_And => Some(State(pc + 1, Push(Logic(M, AND_LOGIC, tos, nos), below)))
    case OP_Or => Some(State(pc + 1, Push(Logic(M, OR_LOGIC, tos, nos), below)))
    case OP_Arith(a) => Some(State(pc + 1, Push(M.arith(a, nos, tos), below)))
    case _ => None
  }

  function PopN(s: Stack, n: nat): Option<Stack> {
    if n == 0 then Some(s) else if s.Empty? then None else PopN(s.below, n - 1)
  }

  function Nth(s: Stack, n: nat): Option<Value> {
    if s.Empty? then None else if n == 0 then Some(s.top) else Nth(s.below, n - 1)
  }

  /** The n-th element removed. */
  function Without(s: Stack, n: nat): Stack {
    if s.Empty? then s else if n == 0 then s.below else Push(s.top, Without(s.below, n - 1))
  }

  /** Effect of an instruction that only pushes or moves. */
  function StepMove(M: Machine, op: Op, pc: int, s: Stack): Option<State> {
    match op.opcode
    case OP_Goto => Some(State(op.p2, s))
    case OP_Integer => Some(State(pc + 1, Push(Num(op.p1, if op.p3.P3? then op.p3.z else ""), s)))
    case OP_String => Some(State(pc + 1, Push(if op.p3.P3? then Text(op.p3.z) else Null, s)))
    case OP_Variable => Some(State(pc + 1, Push(M.variable(op.p1), s)))
    case OP_Column => Some(State(pc + 1, Push(M.column(op.p1, op.p2), s)))
    case OP_Recno => Some(State(pc + 1, Push(M.recno(op.p1), s)))
    case OP_Pop =>
      if op.p1 < 0 then None
      else var t := PopN(s, op.p1); if t.None? then None else Some(State(pc + 1, t.value))
    case OP_Dup =>
      if op.p1 < 0 then None
      else var v := Nth(s, op.p1); if v.None? then None else Some(State(pc + 1, Push(v.value, s)))
    case OP_Pull =>
      if op.p1 < 0 then None
      else var v := Nth(s, op.p1); if v.None? then None else Some(State(pc + 1, Push(v.value, Without(s, op.p1))))
    case _ => None
  }

  predicate OnTop(o: Opcode) {
    o in {OP_Not, OP_AddImm, OP_If, OP_IfNot, OP_SetFound, OP_SetNotFound, OP_IsNull, OP_NotNull}
  }

  predicate OnTwo(o: Opcode) {
    o.OP_Cmp? || o.OP_And? || o.OP_Or? || o.OP_Arith?
  }

  /** Effect of one instruction; None where the machine's own assertions would fail. */
  function Exec(M: Machine, op: Op, pc: int, s: Stack): Option<State> {
    if OnTop(op.opcode) then (if s.Empty? then None else StepTop(M, op, pc, s.top, s.below))
    else if OnTwo(op.opcode) then
      (if s.Empty? || s.below.Empty? then None else StepTwo(M, op, pc, s.top, s.below.top, s.below.below))
    else StepMove(M, op, pc, s)
  }

  function Step(M: Machine, prog: seq<Op>, st: State): Option<State> {
    if 0 <= st.pc < |prog| then Exec(M, prog[st.pc], st.pc, st.stack) else None
  }

  function Run(M: Machine, prog: seq<Op>, st: State, n: nat): Option<State>
    decreases n
  {
    if n == 0 then Some(st)
    else var t := Step(M, prog, st); if t.None? then None else Run(M, prog, t.value, n - 1)
  }

  /** Running from s comes to t. */
  ghost predicate Leads(M: Machine, prog: seq<Op>, s: State, t: State) {
    exists n: nat :: Run(M, prog, s, n) == Some(t)
  }

  lemma {:induction false} RunTwice(M: Machine, prog: seq<Op>, s: State, t: State, a: nat, b: nat)
    requires Run(M, prog, s, a) == Some(t)
    ensures Run(M, prog, s, a + b) == Run(M, prog, t, b)
    decreases a
  {
    if a > 0 { RunTwice(M, prog, Step(M, prog, s).value, t, a - 1, b); }
  }

  lemma Onward(M: Machine, prog: seq<Op>, s: State, t: State, u: State)
    requires Leads(M, prog, s, t) && Leads(M, prog, t, u)
    ensures Leads(M, prog, s, u)
  {
    var a: nat :| Run(M, prog, s, a) == Some(t);
    var b: nat :| Run(M, prog, t, b) == Some(u);
    RunTwice(M, prog, s, t, a, b);
  }

  lemma OneStep(M: Machine, prog: seq<Op>, s: State, t: State)
    requires Step(M, prog, s) == Some(t)
    ensures Leads(M, prog, s, t)
  {
    assert Run(M, prog, t, 0) == Some(t);
    assert Run(M, prog, s, 1) == Some(t);
  }
}
