/**
  The bytecode loop of zvm/zvm_function.cpp with the operations of zvm/zvm_op_proc.h that work on registers, locals,
  integers and the program counter, as functions on the state of one frame; and the two programs of
  zvm/zvm_op_test.cpp.
 */
module Interp {
  type s64 = x: int | -0x8000_0000_0000_0000 <= x < 0x8000_0000_0000_0000
  type u32 = x: int | 0 <= x < 0x1_0000_0000

  const SUCCESS := 0
  const RET_ATHROW := -1
  const OVER_FLOW := -10001
  const DIV_ZERO := -10002
  const OP_STACK_DEFAULT_SIZE := 32
  /** Setting the counter to this leaves the loop, since it is counted up once more. */
  const LAST_PC: u32 := 0xffff_fffe

  datatype Reg = A | B | C | D

  datatype Op =
    | Move(to: Reg, from: Reg) | PushReg(from: Reg) | PopReg(to: Reg)
    | Iconst(i: s64) | IconstReg(to: Reg, i: s64)
    | Iload(idx: u32) | IloadReg(to: Reg, idx: u32) | Istore(idx: u32) | IstoreReg(from: Reg, idx: u32)
    | Iadd | Isub | Imut | Idiv | Irem | Ineg | Iinc | Not | And | Or
    | PushI | PushIconst(i: s64) | PushNull
    | Acatch | Jump(pc: u32) | Jcond(cond: Cond, pc: u32) | Iret | Ret

  datatype Cond = Je | Jne | Jlg | Jsm | Jlge | Jsme

  datatype Local = Int(value: s64) | NullObj

  /** No exception, the one recorded for a status, or one whose object a handler has given back. */
  datatype Exc = NoExc | Recorded(status: int) | Released

  /** A handler; the empty type catches everything. */
  datatype Handler = Handler(excpType: string, startPc: u32, endPc: u32, entAddr: u32, throwAgain: bool)

  datatype Function = Function(ops: seq<Op>, handlers: seq<Handler>)

  /** The stack object with its current frame, whose locals hold at most `maxSize` entries. */
  datatype Vm = Vm(pc: u32, eax: s64, ebx: s64, ecx: s64, edx: s64, opStack: seq<s64>, locals: seq<Local>, maxSize: nat,
                   exc: Exc, hasFunction: bool)

  // ---------------------------------------------------------------- one operation

  /** Two's complement in 64 bits. */
  function Wrap(x: int): s64 {
    var r := x % 0x1_0000_0000_0000_0000;
    if r >= 0x8000_0000_0000_0000 then r - 0x1_0000_0000_0000_0000 else r
  }

  /** Division truncates towards zero. */
  function Quot(a: int, b: int): int
    requires b != 0
  {
    if a >= 0 then a / b else -(-a / b)
  }

  /** Quotient and remainder as C has them: the remainder has the sign of the dividend. */
  lemma Truncates(a: int, b: int)
    requires b != 0
    ensures var r := a - b * Quot(a, b);
            (if b > 0 then -b < r < b else b < r < -b) && (a >= 0 ==> r >= 0) && (a <= 0 ==> r <= 0)
  {
    var c := if a >= 0 then a else -a;
    assert c == b * (c / b) + c % b;
    assert a < 0 ==> b * Quot(a, b) == -(b * (c / b));
  }

  function Get(v: Vm, r: Reg): s64 {
    match r case A => v.eax case B => v.ebx case C => v.ecx case D => v.edx
  }

  function Set(v: Vm, r: Reg, x: s64): Vm {
    match r case A => v.(eax := x) case B => v.(ebx := x) case C => v.(ecx := x) case D => v.(edx := x)
  }

  function PushOp(v: Vm, x: s64): (Vm, int) {
    if |v.opStack| < OP_STACK_DEFAULT_SIZE then (v.(opStack := v.opStack + [x]), SUCCESS) else (v, OVER_FLOW)
  }

  /** Popping an empty operand stack yields 0. */
  function PopOp(v: Vm): (Vm, s64) {
    if v.opStack == [] then (v, 0) else (v.(opStack := v.opStack[..|v.opStack| - 1]), v.opStack[|v.opStack| - 1])
  }

  function PushLocal(v: Vm, l: Local): (Vm, int) {
    if |v.locals| >= v.maxSize then (v, OVER_FLOW) else (v.(locals := v.locals + [l]), SUCCESS)
  }

  function ValueOf(l: Local): s64 { if l.Int? then l.value else 0 }

  predicate Holds(c: Cond, a: int, b: int) {
    match c
    case Je => a == b
    case Jne => a != b
    case Jlg => a > b
    case Jsm => a < b
    case Jlge => a >= b
    case Jsme => a <= b
  }

  function Truth(b: bool): s64 { if b then 1 else 0 }

  /**
    obj::type of the exception object. The entry it asks declares its type function const and the class of recorded
    exceptions declares its own without const, so that one does not override, and every recorded exception has the
    empty type whatever its status. An object without entry has the type NULL.
   */
  function TypeOf(e: Exc): string {
    match e
    case NoExc => ""
    case Recorded(_) => ""
    case Released => "NULL"
  }

  /** excp_handler::handle; the program counter it looks at is that of the catch operation. */
  predicate Matches(h: Handler, v: Vm) {
    (h.excpType == "" || h.excpType == TypeOf(v.exc)) && h.startPc <= v.pc < h.endPc
  }

  /** function::handler_excp: the first handler that matches. */
  function HandlerExcp(handlers: seq<Handler>, v: Vm): (Vm, bool) {
    if handlers == [] then (v, false)
    else if Matches(handlers[0], v) then
      (v.(pc := handlers[0].entAddr, exc := if handlers[0].throwAgain then v.exc else Released), true)
    else HandlerExcp(handlers[1..], v)
  }

  function Catch(f: Function, v: Vm, status: int): Vm {
    var v1 := if v.exc.NoExc? then v.(exc := Recorded(status)) else v;
    var (v2, caught) := if v.hasFunction then HandlerExcp(f.handlers, v1) else (v1, false);
    if caught then v2 else v2.(pc := LAST_PC)
  }

  /** The assertions of the operation hold. */
  predicate Legal(op: Op, v: Vm) {
    && (op.Iload? || op.IloadReg? || op.Istore? || op.IstoreReg? ==> op.idx < |v.locals|)
    && (op.Istore? ==> |v.opStack| == 1)
  }

  /** op_process. */
  function OpProcess(f: Function, op: Op, v: Vm, status: int): (Vm, int)
    requires Legal(op, v)
  {
    match op
    case Move(to, from) => (Set(v, to, Get(v, from)), SUCCESS)
    case PushReg(from) => PushOp(v, Get(v, from))
    case PopReg(to) => (Set(PopOp(v).0, to, PopOp(v).1), SUCCESS)
    case Iconst(i) => PushOp(v, i)
    case IconstReg(to, i) => (Set(v, to, i), SUCCESS)
    case Iload(idx) => PushOp(v, ValueOf(v.locals[idx]))
    case IloadReg(to, idx) => (Set(v, to, ValueOf(v.locals[idx])), SUCCESS)
    case Istore(idx) => (SetLocal(PopOp(v).0, idx, PopOp(v).1), SUCCESS)
    case IstoreReg(from, idx) => (SetLocal(v, idx, Get(v, from)), SUCCESS)
    case Iadd => (v.(eax := Wrap(v.eax + v.ebx)), SUCCESS)
    case Isub => (v.(eax := Wrap(v.eax - v.ebx)), SUCCESS)
    case Imut => (v.(eax := Wrap(v.eax * v.ebx)), SUCCESS)
    case Idiv => if v.ebx != 0 then (v.(eax := Wrap(Quot(v.eax, v.ebx))), SUCCESS) else (v, DIV_ZERO)
    case Irem => if v.ebx != 0 then (v.(eax := Wrap(v.eax - v.ebx * Quot(v.eax, v.ebx))), SUCCESS) else (v, DIV_ZERO)
    case Ineg => (v.(eax := Wrap(0 - v.eax)), SUCCESS)
    case Iinc => (v.(eax := Wrap(v.eax + 1)), SUCCESS)
    case Not => (v.(eax := Truth(v.eax == 0)), SUCCESS)
    case And => (v.(eax := Truth(v.eax != 0 && v.ebx != 0)), SUCCESS)
    case Or => (v.(eax := Truth(v.eax != 0 || v.ebx != 0)), SUCCESS)
    case PushI => PushLocal(v, Int(v.eax))
    case PushIconst(i) => PushLocal(v, Int(i))
    case PushNull => PushLocal(v, NullObj)
    case Acatch => (Catch(f, v, status), SUCCESS)
    case Jump(pc) => (v.(pc := pc), SUCCESS)
    case Jcond(c, pc) => (if Holds(c, v.eax, v.ebx) then v.(pc := pc) else v, SUCCESS)
    case Iret => (v.(pc := LAST_PC), SUCCESS)
    case Ret => (v.(pc := LAST_PC), SUCCESS)
  }

  /** set_local keeps the type of the local; here an object slot that is overwritten counts as an integer. */
  function SetLocal(v: Vm, idx: u32, x: s64): Vm
    requires idx < |v.locals|
  {
    v.(locals := v.locals[idx := Int(x)])
  }

  // ---------------------------------------------------------------- the loop

  predicate InLoop(f: Function, v: Vm) { v.pc < |f.ops| }

  /** One turn of the loop: on failure the counter goes to slot 0. */
  function Turn(f: Function, v: Vm, ret: int): (Vm, int)
    requires InLoop(f, v) && Legal(f.ops[v.pc], v)
  {
    var (v1, r) := OpProcess(f, f.ops[v.pc], v, ret);
    (v1.(pc := if r == SUCCESS then (v1.pc + 1) % 0x1_0000_0000 else 0), r)
  }

  datatype Outcome = Done(vm: Vm, ret: int) | Running | Aborted

  /** At most `fuel` turns; a failed assertion aborts. */
  function Run(f: Function, v: Vm, ret: int, fuel: nat): Outcome
    decreases fuel
  {
    if !InLoop(f, v) then Done(v, ret)
    else if fuel == 0 then Running
    else if !Legal(f.ops[v.pc], v) then Aborted
    else Run(f, Turn(f, v, ret).0, Turn(f, v, ret).1, fuel - 1)
  }

  /** The catch operation is in slot 0, and slot numbers fit. */
  predicate WellFormed(f: Function) { 0 < |f.ops| < LAST_PC && f.ops[0] == Acatch }

  /** What process does before the loop and behind it. */
  function Started(v: Vm): Vm { v.(pc := 1) }

  function Finished(v: Vm, ret: int): (Vm, int) { (v.(locals := []), if v.exc.NoExc? then ret else RET_ATHROW) }

  /** The loop ends with SUCCESS: a failing operation always leads to slot 0 and on. */
  lemma {:induction false} EndsWithSuccess(f: Function, v: Vm, ret: int, fuel: nat)
    requires WellFormed(f) && Run(f, v, ret, fuel).Done? && (ret != SUCCESS ==> v.pc == 0)
    ensures Run(f, v, ret, fuel).ret == SUCCESS
    decreases fuel
  {
    hide OpProcess;
    if InLoop(f, v) {
      EndsWithSuccess(f, Turn(f, v, ret).0, Turn(f, v, ret).1, fuel - 1);
    }
  }

  /**
    Whatever program terminates, process returns SUCCESS or RET_ATHROW, RET_ATHROW exactly if an exception is recorded
    in the end, and leaves no locals.
   */
  lemma {:induction false} ResultExact(f: Function, v: Vm, fuel: nat)
    requires WellFormed(f) && Run(f, Started(v), SUCCESS, fuel).Done?
    ensures var done := Run(f, Started(v), SUCCESS, fuel);
            var (r, ret) := Finished(done.vm, done.ret);
            && (ret == SUCCESS || ret == RET_ATHROW) && (ret == RET_ATHROW <==> r.exc != NoExc) && r.locals == []
  {
    EndsWithSuccess(f, Started(v), SUCCESS, fuel);
  }

  /** An exception once recorded stays recorded, whether a handler takes it or not. */
  lemma {:induction false} ExceptionsStay(f: Function, v: Vm, ret: int, fuel: nat)
    requires v.exc != NoExc && Run(f, v, ret, fuel).Done?
    ensures Run(f, v, ret, fuel).vm.exc != NoExc
    decreases fuel
  {
    hide OpProcess;
    if InLoop(f, v) {
      OpKeepsException(f, f.ops[v.pc], v, ret);
      ExceptionsStay(f, Turn(f, v, ret).0, Turn(f, v, ret).1, fuel - 1);
    }
  }

  lemma OpKeepsException(f: Function, op: Op, v: Vm, status: int)
    requires v.exc != NoExc && Legal(op, v)
    ensures OpProcess(f, op, v, status).0.exc != NoExc
  {
    HandlerKeepsException(f.handlers, v);
  }

  lemma {:induction false} HandlerKeepsException(handlers: seq<Handler>, v: Vm)
    requires v.exc != NoExc
    ensures HandlerExcp(handlers, v).0.exc != NoExc
  {
    if handlers != [] && !Matches(handlers[0], v) {
      HandlerKeepsException(handlers[1..], v);
    }
  }

  /** From slot 0 with a failing status the loop ends with an exception recorded. */
  lemma TrapIsReported(f: Function, v: Vm, ret: int, fuel: nat)
    requires WellFormed(f) && ret != SUCCESS && v.pc == 0 && Run(f, v, ret, fuel).Done?
    ensures Run(f, v, ret, fuel).vm.exc != NoExc
  {
    hide HandlerExcp;
    var v1 := v.(exc := if v.exc.NoExc? then Recorded(ret) else v.exc);
    HandlerKeepsException(f.handlers, v1);
    var next := Turn(f, v, ret);
    assert next.0.exc != NoExc;
    ExceptionsStay(f, next.0, next.1, fuel - 1);
  }

  /** A handler that the code finds for an exception: its range starts at 0, and its type is empty or fits. */
  predicate Finds(h: Handler, e: Exc) {
    h.startPc == 0 && h.endPc > 0 && (h.excpType == "" || (e == Released && h.excpType == "NULL"))
  }

  /**
    When the catch operation runs the counter is 0. So a handler is found for a recorded exception if and only if some
    handler has the empty type and a range that starts at 0; a type only fits an exception object that an earlier
    handler has given back, and then only the type NULL does.
   */
  lemma {:induction false} OnlyRangesFromZero(handlers: seq<Handler>, v: Vm)
    requires v.pc == 0 && v.exc != NoExc
    ensures HandlerExcp(handlers, v).1 <==> exists i :: 0 <= i < |handlers| && Finds(handlers[i], v.exc)
  {
    if handlers != [] {
      OnlyRangesFromZero(handlers[1..], v);
      assert handlers == [handlers[0]] + handlers[1..];
    }
  }

  /** A handler that names the exception it is for, over a range that holds slot 0, is not found for it. */
  lemma NamedHandlerMissed(v: Vm)
    requires v.pc == 0 && v.exc == Recorded(DIV_ZERO)
    ensures !HandlerExcp([Handler("DIV_ZERO", 0, 5, 1, false)], v).1
  {
    OnlyRangesFromZero([Handler("DIV_ZERO", 0, 5, 1, false)], v);
  }

  // ---------------------------------------------------------------- exact numbers of turns

  /** `k` turns lead from one state to another, all of them possible. */
  ghost predicate Leads(f: Function, v: Vm, ret: int, k: nat, w: Vm, last: int)
    decreases k
  {
    if k == 0 then w == v && last == ret
    else
      && InLoop(f, v) && Legal(f.ops[v.pc], v)
      && Leads(f, Turn(f, v, ret).0, Turn(f, v, ret).1, k - 1, w, last)
  }

  lemma {:induction false} LeadsOn(f: Function, v: Vm, ret: int, k: nat, w: Vm, last: int, m: nat, x: Vm, end: int)
    requires Leads(f, v, ret, k, w, last) && Leads(f, w, last, m, x, end)
    ensures Leads(f, v, ret, k + m, x, end)
    decreases k
  {
    hide Turn, Legal;
    if k > 0 {
      LeadsOn(f, Turn(f, v, ret).0, Turn(f, v, ret).1, k - 1, w, last, m, x, end);
    }
  }

  lemma {:induction false} LeadsRuns(f: Function, v: Vm, ret: int, k: nat, w: Vm, last: int)
    requires Leads(f, v, ret, k, w, last) && !InLoop(f, w)
    ensures Run(f, v, ret, k) == Done(w, last)
    decreases k
  {
    hide Turn, Legal;
    if k > 0 {
      LeadsRuns(f, Turn(f, v, ret).0, Turn(f, v, ret).1, k - 1, w, last);
    }
  }

  /** A run goes through every state it leads to. */
  lemma {:induction false} RunPasses(f: Function, v: Vm, ret: int, k: nat, w: Vm, last: int, fuel: nat)
    requires Leads(f, v, ret, k, w, last) && Run(f, v, ret, fuel).Done?
    ensures k <= fuel && Run(f, v, ret, fuel) == Run(f, w, last, fuel - k)
    decreases k
  {
    hide Turn, Legal;
    if k > 0 {
      RunPasses(f, Turn(f, v, ret).0, Turn(f, v, ret).1, k - 1, w, last, fuel - 1);
    }
  }

  /** A failing operation leads to slot 0. */
  lemma {:induction false} FailureTraps(f: Function, v: Vm, ret: int, k: nat, w: Vm, last: int)
    requires Leads(f, v, ret, k, w, last) && last != SUCCESS && (ret != SUCCESS ==> v.pc == 0)
    ensures w.pc == 0
    decreases k
  {
    hide OpProcess;
    if k > 0 {
      FailureTraps(f, Turn(f, v, ret).0, Turn(f, v, ret).1, k - 1, w, last);
    }
  }

  /**
    When any operation of a run of process fails and the run ends, process returns RET_ATHROW, whether a handler takes
    the exception or not.
   */
  lemma FailureIsReported(f: Function, v: Vm, k: nat, w: Vm, r: int, fuel: nat)
    requires WellFormed(f) && Leads(f, Started(v), SUCCESS, k, w, r) && r != SUCCESS
    requires Run(f, Started(v), SUCCESS, fuel).Done?
    ensures var done := Run(f, Started(v), SUCCESS, fuel);
            done.vm.exc != NoExc && Finished(done.vm, done.ret).1 == RET_ATHROW
  {
    hide Run, Leads;
    FailureTraps(f, Started(v), SUCCESS, k, w, r);
    RunPasses(f, Started(v), SUCCESS, k, w, r, fuel);
    TrapIsReported(f, w, r, fuel - k);
  }

  /** One successful turn. */
  lemma OneTurn(f: Function, v: Vm, w: Vm, k: nat, x: Vm, end: int)
    requires InLoop(f, v) && Legal(f.ops[v.pc], v) && Turn(f, v, SUCCESS) == (w, SUCCESS)
    requires Leads(f, w, SUCCESS, k, x, end)
    ensures Leads(f, v, SUCCESS, k + 1, x, end)
  {
    hide Turn, Legal;
  }

  /** One turn on a known operation that succeeds and does not jump. */
  predicate Plain(op: Op) { op.IloadReg? || op.IstoreReg? || op.Iadd? || op.Iinc? || op.IconstReg? || op.PushIconst? }

  /** What such an operation does to registers and locals. */
  function Effect(op: Op, v: Vm): Vm
    requires Plain(op) && Legal(op, v)
  {
    match op
    case IloadReg(to, idx) => Set(v, to, ValueOf(v.locals[idx]))
    case IstoreReg(from, idx) => SetLocal(v, idx, Get(v, from))
    case Iadd => v.(eax := Wrap(v.eax + v.ebx))
    case Iinc => v.(eax := Wrap(v.eax + 1))
    case IconstReg(to, i) => Set(v, to, i)
    case PushIconst(i) => v.(locals := v.locals + [Int(i)])
  }

  lemma PlainTurn(f: Function, v: Vm, op: Op)
    requires InLoop(f, v) && |f.ops| < LAST_PC && f.ops[v.pc] == op && Plain(op) && Legal(op, v)
    requires op.PushIconst? ==> |v.locals| < v.maxSize
    ensures Legal(f.ops[v.pc], v) && Turn(f, v, SUCCESS) == (Effect(op, v).(pc := v.pc + 1), SUCCESS)
  {
    hide Wrap;
  }

  // ---------------------------------------------------------------- the summing program

  /** zvm_function_test1 for the count `n`. */
  function SumProgram(n: s64): Function {
    Function([Acatch, PushIconst(0), PushIconst(0),
              IloadReg(A, 0), IloadReg(B, 1), Iadd, IstoreReg(A, 0),
              IloadReg(A, 1), Iinc, IstoreReg(A, 1), IconstReg(B, n), IloadReg(A, 1), Jcond(Jsm, 2),
              IloadReg(A, 0), Iret], [])
  }

  function Sum(k: nat): nat { if k == 0 then 0 else Sum(k - 1) + (k - 1) }

  /** At the head of the loop body, with the two locals. */
  function AtHead(v: Vm, eax: s64, ebx: s64, sum: s64, i: s64): Vm {
    v.(pc := 3, eax := eax, ebx := ebx, locals := [Int(sum), Int(i)])
  }

  lemma SumOpsFront(n: s64)
    ensures var ops := SumProgram(n).ops;
            && |ops| == 15 && ops[0] == Acatch && ops[1] == PushIconst(0) && ops[2] == PushIconst(0)
            && ops[13] == IloadReg(A, 0) && ops[14] == Iret
  {
  }

  lemma SumOpsLoad(n: s64)
    ensures var ops := SumProgram(n).ops; |ops| == 15 && ops[3] == IloadReg(A, 0) && ops[4] == IloadReg(B, 1)
  {
  }

  lemma SumOpsAdd(n: s64)
    ensures var ops := SumProgram(n).ops; |ops| == 15 && ops[5] == Iadd && ops[6] == IstoreReg(A, 0)
  {
  }

  lemma SumOpsTest(n: s64)
    ensures var ops := SumProgram(n).ops;
            && |ops| == 15 && ops[7] == IloadReg(A, 1) && ops[8] == Iinc && ops[9] == IstoreReg(A, 1)
            && ops[10] == IconstReg(B, n) && ops[11] == IloadReg(A, 1) && ops[12] == Jcond(Jsm, 2)
  {
  }

  lemma WrapAdds(a: int, b: int)
    ensures Wrap(Wrap(a) + b) == Wrap(a + b)
  {
  }

  /** The first half of the body: sum += i. */
  lemma {:induction false} AddTurns(n: s64, v: Vm, eax: s64, ebx: s64, sum: s64, i: s64) returns (w: Vm)
    ensures w == AtHead(v, Wrap(sum + i), i, Wrap(sum + i), i).(pc := 7)
    ensures Leads(SumProgram(n), AtHead(v, eax, ebx, sum, i), SUCCESS, 4, w, SUCCESS)
  {
    hide Wrap, SumProgram, Turn, Legal, OpProcess, Leads, Effect;
    SumOpsLoad(n);
    SumOpsAdd(n);
    var f := SumProgram(n);
    w := AtHead(v, Wrap(sum + i), i, Wrap(sum + i), i).(pc := 7);
    var v0 := AtHead(v, eax, ebx, sum, i);
    var v1 := v0.(pc := 4, eax := sum);
    var v2 := v1.(pc := 5, ebx := i);
    var v3 := v2.(pc := 6, eax := Wrap(sum + i));
    LoadTurn(f, v0, A, 0, v1);
    LoadTurn(f, v1, B, 1, v2);
    AddTurn(f, v2, v3);
    StoreTurn(f, v3, 0, w);
    FourTurns(f, v0, v1, v2, v3, w);
  }

  lemma LoadTurn(f: Function, v: Vm, to: Reg, idx: u32, w: Vm)
    requires InLoop(f, v) && |f.ops| < LAST_PC && f.ops[v.pc] == IloadReg(to, idx) && idx < |v.locals|
    requires w == Set(v, to, ValueOf(v.locals[idx])).(pc := v.pc + 1)
    ensures Legal(f.ops[v.pc], v) && Turn(f, v, SUCCESS) == (w, SUCCESS)
  {
    PlainTurn(f, v, IloadReg(to, idx));
  }

  lemma StoreTurn(f: Function, v: Vm, idx: u32, w: Vm)
    requires InLoop(f, v) && |f.ops| < LAST_PC && f.ops[v.pc] == IstoreReg(A, idx) && idx < |v.locals|
    requires w == v.(pc := v.pc + 1, locals := w.locals) && |w.locals| == |v.locals|
    requires forall k :: 0 <= k < |v.locals| ==> w.locals[k] == if k == idx then Int(v.eax) else v.locals[k]
    ensures Legal(f.ops[v.pc], v) && Turn(f, v, SUCCESS) == (w, SUCCESS)
  {
    PlainTurn(f, v, IstoreReg(A, idx));
    assert w.locals == v.locals[idx := Int(v.eax)];
  }

  lemma AddTurn(f: Function, v: Vm, w: Vm)
    requires InLoop(f, v) && |f.ops| < LAST_PC && f.ops[v.pc] == Iadd
    requires w == v.(pc := v.pc + 1, eax := Wrap(v.eax + v.ebx))
    ensures Legal(f.ops[v.pc], v) && Turn(f, v, SUCCESS) == (w, SUCCESS)
  {
    PlainTurn(f, v, Iadd);
  }

  /** ++i. */
  lemma {:induction false} IncTurns(n: s64, v: Vm, sum: s64, ebx: s64, i: s64, w: Vm, v3: Vm)
    requires 0 <= i < 0x7fff_ffff_ffff_ffff
    requires w == AtHead(v, sum, ebx, sum, i).(pc := 7) && v3 == AtHead(v, i + 1, ebx, sum, i + 1).(pc := 10)
    ensures Leads(SumProgram(n), w, SUCCESS, 3, v3, SUCCESS)
  {
    hide SumProgram, Turn, OpProcess, Leads, Wrap;
    SumOpsTest(n);
    WrapSmall(i + 1);
    var f := SumProgram(n);
    var v1 := w.(pc := 8, eax := i);
    var v2 := v1.(pc := 9, eax := i + 1);
    LoadTurn(f, w, A, 1, v1);
    PlainTurn(f, v1, Iinc);
    StoreTurn(f, v2, 1, v3);
    TwoTurns(f, v1, v2, v3);
    OneTurn(f, w, v1, 2, v3, SUCCESS);
  }

  /** The comparison with the count. */
  lemma {:induction false} TestTurns(n: s64, v3: Vm, i: s64)
    requires v3.pc == 10 && |v3.locals| == 2 && v3.locals[1] == Int(i)
    ensures Leads(SumProgram(n), v3, SUCCESS, 3,
                  v3.(eax := i, ebx := n, pc := if i < n then 3 else 13), SUCCESS)
  {
    hide SumProgram, Turn, OpProcess, Leads, Wrap;
    SumOpsTest(n);
    var f := SumProgram(n);
    var v4 := v3.(pc := 11, ebx := n);
    var v5 := v4.(pc := 12, eax := i);
    var v6 := v5.(pc := if i < n then 3 else 13);
    PlainTurn(f, v3, IconstReg(B, n));
    LoadTurn(f, v4, A, 1, v5);
    CompareTurn(f, v5);
    TwoTurns(f, v4, v5, v6);
    OneTurn(f, v3, v4, 2, v6, SUCCESS);
  }

  lemma CompareTurn(f: Function, v: Vm)
    requires InLoop(f, v) && |f.ops| < LAST_PC && f.ops[v.pc] == Jcond(Jsm, 2)
    ensures Legal(f.ops[v.pc], v)
    ensures Turn(f, v, SUCCESS) == (v.(pc := if v.eax < v.ebx then 3 else v.pc + 1), SUCCESS)
  {
  }

  lemma WrapSmall(x: int)
    requires 0 <= x < 0x8000_0000_0000_0000
    ensures Wrap(x) == x
  {
  }

  lemma TwoTurns(f: Function, v0: Vm, v1: Vm, v2: Vm)
    requires InLoop(f, v0) && Legal(f.ops[v0.pc], v0) && Turn(f, v0, SUCCESS) == (v1, SUCCESS)
    requires InLoop(f, v1) && Legal(f.ops[v1.pc], v1) && Turn(f, v1, SUCCESS) == (v2, SUCCESS)
    ensures Leads(f, v0, SUCCESS, 2, v2, SUCCESS)
  {
    hide Turn, Legal, InLoop;
    assert Leads(f, v2, SUCCESS, 0, v2, SUCCESS);
    OneTurn(f, v1, v2, 0, v2, SUCCESS);
    OneTurn(f, v0, v1, 1, v2, SUCCESS);
  }

  lemma FourTurns(f: Function, v0: Vm, v1: Vm, v2: Vm, v3: Vm, v4: Vm)
    requires InLoop(f, v0) && Legal(f.ops[v0.pc], v0) && Turn(f, v0, SUCCESS) == (v1, SUCCESS)
    requires InLoop(f, v1) && Legal(f.ops[v1.pc], v1) && Turn(f, v1, SUCCESS) == (v2, SUCCESS)
    requires InLoop(f, v2) && Legal(f.ops[v2.pc], v2) && Turn(f, v2, SUCCESS) == (v3, SUCCESS)
    requires InLoop(f, v3) && Legal(f.ops[v3.pc], v3) && Turn(f, v3, SUCCESS) == (v4, SUCCESS)
    ensures Leads(f, v0, SUCCESS, 4, v4, SUCCESS)
  {
    hide Turn, Legal, InLoop;
    TwoTurns(f, v0, v1, v2);
    TwoTurns(f, v2, v3, v4);
    LeadsOn(f, v0, SUCCESS, 2, v2, SUCCESS, 2, v4, SUCCESS);
  }

  /** The loop from `i` on, when the locals hold the sum so far and `i`. */
  lemma {:induction false} LoopTurns(n: s64, v: Vm, eax: s64, ebx: s64, i: nat) returns (turns: nat, w: Vm)
    requires i < 0x7fff_ffff_ffff_ffff && (i == 0 || i < n)
    ensures Leads(SumProgram(n), AtHead(v, eax, ebx, Wrap(Sum(i)), i), SUCCESS, turns, w, SUCCESS)
    ensures w.pc == 13 && |w.locals| == 2 && w.locals[0] == Int(Wrap(Sum(if n <= 1 then 1 else n)))
    ensures w == v.(pc := 13, eax := w.eax, ebx := w.ebx, locals := w.locals)
    decreases n - i
  {
    hide Wrap, Leads, SumProgram;
    var f, v0 := SumProgram(n), AtHead(v, eax, ebx, Wrap(Sum(i)), i);
    WrapAdds(Sum(i), i);
    var half := AddTurns(n, v, eax, ebx, Wrap(Sum(i)), i);
    var sum := Wrap(Sum(i + 1));
    var counted := AtHead(v, i + 1, i, sum, i + 1).(pc := 10);
    IncTurns(n, v, sum, i, i, half, counted);
    TestTurns(n, counted, i + 1);
    LeadsOn(f, half, SUCCESS, 3, counted, SUCCESS, 3,
            counted.(eax := i + 1, ebx := n, pc := if i + 1 < n then 3 else 13), SUCCESS);
    var v1 := AtHead(v, i + 1, n, sum, i + 1).(pc := if i + 1 < n then 3 else 13);
    LeadsOn(f, v0, SUCCESS, 4, half, SUCCESS, 6, v1, SUCCESS);
    if i + 1 < n {
      turns, w := LoopTurns(n, v, i + 1, n, i + 1);
      LeadsOn(f, v0, SUCCESS, 10, v1, SUCCESS, turns, w, SUCCESS);
      turns := turns + 10;
    } else {
      turns, w := 10, v1;
    }
  }

  /**
    On an empty frame with room for two locals and no exception pending, the program ends with SUCCESS for every count,
    the sum of the numbers below it in eax (as 64 bits), and no locals; a count below 1 gives 0.
   */
  lemma SumProgramSums(n: s64, v: Vm) returns (fuel: nat)
    requires v.locals == [] && v.maxSize >= 2 && v.exc == NoExc
    ensures var f := SumProgram(n);
            && WellFormed(f) && Run(f, Started(v), SUCCESS, fuel).Done?
            && var done := Run(f, Started(v), SUCCESS, fuel);
               var (r, ret) := Finished(done.vm, done.ret);
               ret == SUCCESS && r.eax == Wrap(if n <= 0 then 0 else Sum(n)) && r.locals == []
  {
    hide Wrap, Leads, Run, SumProgram, Turn, OpProcess;
    SumOpsFront(n);
    var f, v0 := SumProgram(n), Started(v);
    var v1 := v0.(pc := 2, locals := [Int(0)]);
    var v2 := AtHead(v, v.eax, v.ebx, 0, 0);
    PlainTurn(f, v0, PushIconst(0));
    assert v0.locals + [Int(0)] == v1.locals;
    PlainTurn(f, v1, PushIconst(0));
    assert v1.locals + [Int(0)] == v2.locals;
    TwoTurns(f, v0, v1, v2);
    WrapZero();
    var turns, w := LoopTurns(n, v, v.eax, v.ebx, 0);
    var w1 := w.(pc := 14, eax := ValueOf(w.locals[0]));
    var w2 := w1.(pc := 0xffff_ffff);
    PlainTurn(f, w, IloadReg(A, 0));
    ReturnTurn(f, w1);
    TwoTurns(f, w, w1, w2);
    LeadsOn(f, v0, SUCCESS, 2, v2, SUCCESS, turns, w, SUCCESS);
    LeadsOn(f, v0, SUCCESS, 2 + turns, w, SUCCESS, 2, w2, SUCCESS);
    fuel := 2 + turns + 2;
    LeadsRuns(f, v0, SUCCESS, fuel, w2, SUCCESS);
  }

  lemma ReturnTurn(f: Function, v: Vm)
    requires InLoop(f, v) && |f.ops| < LAST_PC && f.ops[v.pc] == Iret
    ensures Legal(f.ops[v.pc], v) && Turn(f, v, SUCCESS) == (v.(pc := 0xffff_ffff), SUCCESS)
  {
  }

  lemma WrapZero()
    ensures Wrap(0) == 0 && Wrap(Sum(0)) == 0 && Wrap(Sum(1)) == 0
  {
  }

  /** In range the result is the sum itself. */
  lemma {:induction false} SumInRange(n: nat)
    ensures 2 * Sum(n) == n * (n - 1)
    ensures n * (n - 1) < 0x1_0000_0000_0000_0000 ==> Wrap(Sum(n)) == Sum(n)
  {
    if n > 0 {
      SumInRange(n - 1);
      assert n * (n - 1) == (n - 1) * (n - 2) + 2 * (n - 1);
    }
  }

  // ---------------------------------------------------------------- the program that jumps to itself

  /** zvm_function_test0 with its last operation, a jump to slot 0. */
  const LoopProgram := Function([Acatch, PushIconst(1), PushIconst(2), IloadReg(A, 0), IloadReg(B, 1), Iadd,
                                 IstoreReg(A, 0), PushNull, Jump(0)], [])

  lemma LoopOps()
    ensures var ops := LoopProgram.ops;
            && LoopProgram.handlers == []
            && |ops| == 9 && ops[0] == Acatch && ops[1] == PushIconst(1) && ops[2] == PushIconst(2)
            && ops[3] == IloadReg(A, 0) && ops[4] == IloadReg(B, 1) && ops[5] == Iadd && ops[6] == IstoreReg(A, 0)
            && ops[7] == PushNull && ops[8] == Jump(0)
  {
  }

  /** A full frame: the push fails, slot 0 records the overflow, and the loop ends. */
  lemma FullFrameEnds(v: Vm) returns (w: Vm)
    requires (v.pc == 1 || v.pc == 2 || v.pc == 7) && |v.locals| == v.maxSize
    ensures Leads(LoopProgram, v, SUCCESS, 2, w, SUCCESS) && !InLoop(LoopProgram, w) && w.exc != NoExc
  {
    hide Turn, Leads;
    LoopOps();
    var f := LoopProgram;
    var v1 := v.(pc := 0);
    w := v1.(pc := 0xffff_ffff, exc := if v.exc.NoExc? then Recorded(OVER_FLOW) else v.exc);
    FailingPush(f, v);
    Uncaught(f, v1, OVER_FLOW);
    EndLeads(f, v, v1, w);
  }

  lemma FailingPush(f: Function, v: Vm)
    requires InLoop(f, v) && (f.ops[v.pc].PushIconst? || f.ops[v.pc].PushNull?) && |v.locals| >= v.maxSize
    ensures Legal(f.ops[v.pc], v) && Turn(f, v, SUCCESS) == (v.(pc := 0), OVER_FLOW)
  {
  }

  lemma Uncaught(f: Function, v: Vm, status: int)
    requires f.ops != [] && f.ops[0] == Acatch && f.handlers == [] && v.pc == 0
    ensures InLoop(f, v) && Legal(f.ops[0], v)
    ensures Turn(f, v, status) ==
              (v.(pc := 0xffff_ffff, exc := if v.exc.NoExc? then Recorded(status) else v.exc), SUCCESS)
  {
  }

  lemma EndLeads(f: Function, v: Vm, v1: Vm, w: Vm)
    requires InLoop(f, v) && Legal(f.ops[v.pc], v) && Turn(f, v, SUCCESS) == (v1, OVER_FLOW)
    requires InLoop(f, v1) && Legal(f.ops[v1.pc], v1) && Turn(f, v1, OVER_FLOW) == (w, SUCCESS)
    ensures Leads(f, v, SUCCESS, 2, w, SUCCESS)
  {
    hide Turn, Legal, InLoop;
    assert Leads(f, w, SUCCESS, 0, w, SUCCESS);
    assert Leads(f, v1, OVER_FLOW, 1, w, SUCCESS);
  }

  /** Slots 3 to 6, which push nothing. */
  lemma {:induction false} MiddleTurns(v: Vm) returns (w: Vm)
    requires v.pc == 3 && |v.locals| >= 2
    ensures Leads(LoopProgram, v, SUCCESS, 4, w, SUCCESS)
    ensures w.pc == 7 && |w.locals| == |v.locals| && w.maxSize == v.maxSize
  {
    hide Wrap, Turn, OpProcess, Leads;
    LoopOps();
    var f := LoopProgram;
    var v1 := v.(pc := 4, eax := ValueOf(v.locals[0]));
    var v2 := v1.(pc := 5, ebx := ValueOf(v.locals[1]));
    var v3 := v2.(pc := 6, eax := Wrap(v2.eax + v2.ebx));
    w := v3.(pc := 7, locals := v.locals[0 := Int(v3.eax)]);
    PlainTurn(f, v, IloadReg(A, 0));
    PlainTurn(f, v1, IloadReg(B, 1));
    PlainTurn(f, v2, Iadd);
    PlainTurn(f, v3, IstoreReg(A, 0));
    FourTurns(f, v, v1, v2, v3, w);
  }

  /** One push that finds room. */
  lemma PushTurn(v: Vm, w: Vm)
    requires (v.pc == 1 || v.pc == 2 || v.pc == 7) && |v.locals| < v.maxSize
    requires w == v.(pc := v.pc + 1,
                     locals := v.locals + [if v.pc == 1 then Int(1) else if v.pc == 2 then Int(2) else NullObj])
    ensures Leads(LoopProgram, v, SUCCESS, 1, w, SUCCESS)
  {
    hide Turn;
    LoopOps();
    PushSucceeds(LoopProgram, v);
    assert Leads(LoopProgram, w, SUCCESS, 0, w, SUCCESS);
  }

  lemma PushSucceeds(f: Function, v: Vm)
    requires InLoop(f, v) && |f.ops| < LAST_PC && |v.locals| < v.maxSize
    requires f.ops[v.pc].PushIconst? || f.ops[v.pc].PushNull?
    ensures Legal(f.ops[v.pc], v)
    ensures Turn(f, v, SUCCESS) ==
              (v.(pc := v.pc + 1,
                  locals := v.locals + [if f.ops[v.pc].PushNull? then NullObj else Int(f.ops[v.pc].i)]), SUCCESS)
  {
  }

  lemma JumpTurn(v: Vm)
    requires v.pc == 8
    ensures Leads(LoopProgram, v, SUCCESS, 1, v.(pc := 1), SUCCESS)
  {
    assert Turn(LoopProgram, v, SUCCESS) == (v.(pc := 1), SUCCESS);
    assert Leads(LoopProgram, v.(pc := 1), SUCCESS, 0, v.(pc := 1), SUCCESS);
  }

  /** From slot 1 the program ends with an exception: every lap leaves less room in the frame. */
  lemma {:induction false} LapsEnd(v: Vm) returns (turns: nat, w: Vm)
    requires v.pc == 1 && |v.locals| <= v.maxSize
    ensures Leads(LoopProgram, v, SUCCESS, turns, w, SUCCESS) && !InLoop(LoopProgram, w) && w.exc != NoExc
    decreases v.maxSize - |v.locals|
  {
    hide Leads, Turn, InLoop;
    var f := LoopProgram;
    if |v.locals| == v.maxSize {
      turns := 2;
      w := FullFrameEnds(v);
      return;
    }
    var v1 := v.(pc := 2, locals := v.locals + [Int(1)]);
    PushTurn(v, v1);
    if |v1.locals| == v.maxSize {
      w := FullFrameEnds(v1);
      LeadsOn(f, v, SUCCESS, 1, v1, SUCCESS, 2, w, SUCCESS);
      turns := 3;
      return;
    }
    var v2 := v1.(pc := 3, locals := v1.locals + [Int(2)]);
    PushTurn(v1, v2);
    LeadsOn(f, v, SUCCESS, 1, v1, SUCCESS, 1, v2, SUCCESS);
    var v3 := MiddleTurns(v2);
    LeadsOn(f, v, SUCCESS, 2, v2, SUCCESS, 4, v3, SUCCESS);
    if |v3.locals| == v.maxSize {
      w := FullFrameEnds(v3);
      LeadsOn(f, v, SUCCESS, 6, v3, SUCCESS, 2, w, SUCCESS);
      turns := 8;
      return;
    }
    var v4 := v3.(pc := 8, locals := v3.locals + [NullObj]);
    PushTurn(v3, v4);
    LeadsOn(f, v, SUCCESS, 6, v3, SUCCESS, 1, v4, SUCCESS);
    JumpTurn(v4);
    var v5 := v4.(pc := 1);
    LeadsOn(f, v, SUCCESS, 7, v4, SUCCESS, 1, v5, SUCCESS);
    turns, w := LapsEnd(v5);
    LeadsOn(f, v, SUCCESS, 8, v5, SUCCESS, turns, w, SUCCESS);
    turns := turns + 8;
  }

  /** Whatever the capacity of the frame, the self-jumping program terminates with RET_ATHROW and no locals. */
  lemma LoopProgramThrows(v: Vm) returns (fuel: nat)
    requires |v.locals| <= v.maxSize
    ensures WellFormed(LoopProgram) && Run(LoopProgram, Started(v), SUCCESS, fuel).Done?
    ensures var done := Run(LoopProgram, Started(v), SUCCESS, fuel);
            var (r, ret) := Finished(done.vm, done.ret);
            ret == RET_ATHROW && r.locals == []
  {
    hide Leads, Run;
    var turns, w := LapsEnd(Started(v));
    LeadsRuns(LoopProgram, Started(v), SUCCESS, turns, w, SUCCESS);
    fuel := turns;
  }
}
