/**
  The frame of zvm/zvm_frame.h and the stack object on which zvm/zvm_function.cpp and zvm/zvm_op_proc.h work, as
  objects updated in place, against the functions of Interp.
 */
module InterpStack {
  import opened Interp

  predicate IsArithOp(op: Op) {
    op.Iadd? || op.Isub? || op.Imut? || op.Idiv? || op.Irem? || op.Ineg? || op.Iinc? || op.Not? || op.And? || op.Or?
  }

  predicate IsLocalOp(op: Op) {
    op.Iload? || op.IloadReg? || op.Istore? || op.IstoreReg? || op.PushI? || op.PushIconst? || op.PushNull?
  }

  class Frame {
    const slots: array<Local>
    var size: nat

    ghost predicate Valid()
      reads this
    {
      size <= slots.Length
    }

    ghost function Contents(): (s: seq<Local>)
      reads this, slots
      requires Valid()
    {
      slots[..size]
    }

    constructor (maxSize: nat)
      ensures Valid() && Contents() == [] && slots.Length == maxSize && fresh(slots)
    {
      slots := new Local[maxSize](i => NullObj);
      size := 0;
    }

    method GetLocal(idx: u32) returns (x: s64)
      requires Valid() && idx < size
      ensures x == ValueOf(Contents()[idx])
    {
      x := ValueOf(slots[idx]);
    }

    method SetLocal(idx: u32, x: s64)
      requires Valid() && idx < size
      modifies slots
      ensures Contents() == old(Contents())[idx := Int(x)]
    {
      slots[idx] := Int(x);
    }

    method Push(l: Local) returns (ret: int)
      requires Valid()
      modifies this`size, slots
      ensures Valid() && if old(size) >= slots.Length then ret == OVER_FLOW && Contents() == old(Contents())
                         else ret == SUCCESS && Contents() == old(Contents()) + [l]
    {
      if size >= slots.Length {
        return OVER_FLOW;
      }
      slots[size] := l;
      size := size + 1;
      return SUCCESS;
    }

    method Pop() returns (l: Local)
      requires Valid() && size > 0
      modifies this`size
      ensures Valid() && old(Contents()) == Contents() + [l]
    {
      size := size - 1;
      l := slots[size];
    }
  }

  class Stack {
    var pc: u32
    var eax: s64
    var ebx: s64
    var ecx: s64
    var edx: s64
    var opStack: seq<s64>
    const frame: Frame
    var excp: Exc
    const hasFunction: bool

    ghost predicate Valid()
      reads this, frame
    {
      frame.Valid()
    }

    ghost function View(): Vm
      reads this, frame, frame.slots
      requires Valid()
    {
      Vm(pc, eax, ebx, ecx, edx, opStack, frame.Contents(), frame.slots.Length, excp, hasFunction)
    }

    constructor (maxSize: nat, hasFunction: bool)
      ensures Valid() && View() == Vm(0, 0, 0, 0, 0, [], [], maxSize, NoExc, hasFunction)
      ensures fresh(frame) && fresh(frame.slots)
    {
      pc, eax, ebx, ecx, edx, opStack, excp := 0, 0, 0, 0, 0, [], NoExc;
      frame := new Frame(maxSize);
      this.hasFunction := hasFunction;
    }

    function GetReg(r: Reg): s64
      reads this
    {
      match r case A => eax case B => ebx case C => ecx case D => edx
    }

    method SetReg(r: Reg, x: s64)
      requires Valid()
      modifies this`eax, this`ebx, this`ecx, this`edx
      ensures View() == Set(old(View()), r, x)
    {
      match r
      case A => eax := x;
      case B => ebx := x;
      case C => ecx := x;
      case D => edx := x;
    }

    method PushOpStack(x: s64) returns (ret: int)
      requires Valid()
      modifies this`opStack
      ensures (View(), ret) == PushOp(old(View()), x)
    {
      if |opStack| < OP_STACK_DEFAULT_SIZE {
        opStack := opStack + [x];
        return SUCCESS;
      }
      return OVER_FLOW;
    }

    method PopOpStack() returns (x: s64)
      requires Valid()
      modifies this`opStack
      ensures (View(), x) == PopOp(old(View()))
    {
      if opStack == [] {
        return 0;
      }
      x := opStack[|opStack| - 1];
      opStack := opStack[..|opStack| - 1];
    }

    /** function::handler_excp. */
    method HandlerExcp(handlers: seq<Handler>) returns (catched: bool)
      requires Valid()
      modifies this`pc, this`excp
      ensures (View(), catched) == Interp.HandlerExcp(handlers, old(View()))
    {
      var i := 0;
      while i < |handlers|
        invariant 0 <= i <= |handlers| && View() == old(View())
        invariant Interp.HandlerExcp(handlers[i..], View()) == Interp.HandlerExcp(handlers, View())
      {
        var h := handlers[i];
        assert handlers[i..][1..] == handlers[i + 1..];
        if (h.excpType == "" || h.excpType == TypeOf(excp)) && h.startPc <= pc < h.endPc {
          if !h.throwAgain {
            excp := Released;
          }
          pc := h.entAddr;
          return true;
        }
        i := i + 1;
      }
      return false;
    }

    /** The case ACATCH. */
    method CatchOp(f: Function, status: int)
      requires Valid()
      modifies this`pc, this`excp
      ensures View() == Catch(f, old(View()), status)
    {
      hide Interp.HandlerExcp;
      if excp.NoExc? {
        excp := Recorded(status);
      }
      var catched := false;
      if hasFunction {
        catched := HandlerExcp(f.handlers);
      }
      if !catched {
        pc := LAST_PC;
      }
    }

    /** The cases that work on registers alone. */
    method ArithOp(f: Function, op: Op, status: int) returns (ret: int)
      requires Valid() && IsArithOp(op)
      modifies this`eax
      ensures Legal(op, old(View())) && (View(), ret) == Interp.OpProcess(f, op, old(View()), status)
    {
      hide Wrap, Quot;
      ret := SUCCESS;
      match op
      case Iadd => eax := Wrap(eax + ebx);
      case Isub => eax := Wrap(eax - ebx);
      case Imut => eax := Wrap(eax * ebx);
      case Idiv => if ebx != 0 { eax := Wrap(Quot(eax, ebx)); } else { ret := DIV_ZERO; }
      case Irem => if ebx != 0 { eax := Wrap(eax - ebx * Quot(eax, ebx)); } else { ret := DIV_ZERO; }
      case Ineg => eax := Wrap(0 - eax);
      case Iinc => eax := Wrap(eax + 1);
      case Not => eax := Truth(eax == 0);
      case And => eax := Truth(eax != 0 && ebx != 0);
      case Or => eax := Truth(eax != 0 || ebx != 0);
    }

    /** The cases that touch the frame. */
    method LocalOp(f: Function, op: Op, status: int) returns (ret: int)
      requires Valid() && Legal(op, View())
      requires IsLocalOp(op)
      modifies this, frame, frame.slots
      ensures Valid() && (View(), ret) == Interp.OpProcess(f, op, old(View()), status)
    {
      ret := SUCCESS;
      match op
      case Iload(idx) =>
        var x := frame.GetLocal(idx);
        ret := PushOpStack(x);
      case IloadReg(to, idx) =>
        var x := frame.GetLocal(idx);
        SetReg(to, x);
      case Istore(idx) =>
        var x := PopOpStack();
        frame.SetLocal(idx, x);
      case IstoreReg(from, idx) => frame.SetLocal(idx, GetReg(from));
      case PushI => ret := frame.Push(Int(eax));
      case PushIconst(i) => ret := frame.Push(Int(i));
      case PushNull => ret := frame.Push(NullObj);
    }

    method CondHolds(c: Cond) returns (b: bool)
      ensures b == Holds(c, eax, ebx)
    {
      match c
      case Je => b := eax == ebx;
      case Jne => b := eax != ebx;
      case Jlg => b := eax > ebx;
      case Jsm => b := eax < ebx;
      case Jlge => b := eax >= ebx;
      case Jsme => b := eax <= ebx;
    }

    /** The cases that move values between registers and operand stack, and those that set the counter. */
    method ControlOp(f: Function, op: Op, status: int) returns (ret: int)
      requires Valid() && !IsLocalOp(op) && !IsArithOp(op)
      modifies this
      ensures Legal(op, old(View())) && (View(), ret) == Interp.OpProcess(f, op, old(View()), status)
    {
      hide Catch;
      ret := SUCCESS;
      if op.Move? {
        SetReg(op.to, GetReg(op.from));
      } else if op.PushReg? {
        ret := PushOpStack(GetReg(op.from));
      } else if op.PopReg? {
        var x := PopOpStack();
        SetReg(op.to, x);
      } else if op.Iconst? {
        ret := PushOpStack(op.i);
      } else if op.IconstReg? {
        SetReg(op.to, op.i);
      } else if op.Acatch? {
        CatchOp(f, status);
      } else if op.Jump? {
        pc := op.pc;
      } else if op.Jcond? {
        var b := CondHolds(op.cond);
        if b {
          pc := op.pc;
        }
      } else {
        pc := LAST_PC;
      }
    }

    /** op_process. */
    method OpProcess(f: Function, op: Op, status: int) returns (ret: int)
      requires Valid() && Legal(op, View())
      modifies this, frame, frame.slots
      ensures Valid() && (View(), ret) == Interp.OpProcess(f, op, old(View()), status)
    {
      if IsLocalOp(op) {
        ret := LocalOp(f, op, status);
      } else if IsArithOp(op) {
        ret := ArithOp(f, op, status);
      } else {
        ret := ControlOp(f, op, status);
      }
    }

    /** function::process, for a program that comes to an end within `fuel` turns without a failed assertion. */
    method Process(f: Function, ghost fuel: nat) returns (ret: int)
      requires Valid() && WellFormed(f) && Run(f, Started(View()), SUCCESS, fuel).Done?
      modifies this, frame, frame.slots
      ensures Valid()
      ensures var done := Run(f, Started(old(View())), SUCCESS, fuel);
              (View(), ret) == Finished(done.vm, done.ret)
    {
      hide Run, Interp.OpProcess;
      pc := 1;
      ret := SUCCESS;
      var cnt := |f.ops|;
      ghost var left, start := fuel, View();
      while pc < cnt
        invariant Valid() && Run(f, View(), ret, left) == Run(f, start, SUCCESS, fuel)
        decreases left
      {
        RunUnfolds(f, View(), ret, left);
        ret := OpProcess(f, f.ops[pc], ret);
        pc := if ret == SUCCESS then (pc + 1) % 0x1_0000_0000 else 0;
        left := left - 1;
      }
      RunUnfolds(f, View(), ret, left);
      ghost var done := View();
      var sz := frame.size;
      while sz > 0
        invariant Valid() && sz == frame.size && View() == done.(locals := frame.Contents())
      {
        var l := frame.Pop();
        sz := sz - 1;
      }
      if !excp.NoExc? {
        ret := RET_ATHROW;
      }
    }
  }

  lemma RunUnfolds(f: Function, v: Vm, ret: int, left: nat)
    requires Run(f, v, ret, left).Done?
    ensures !InLoop(f, v) ==> Run(f, v, ret, left) == Done(v, ret)
    ensures InLoop(f, v) ==> left > 0 && Legal(f.ops[v.pc], v)
                             && Run(f, v, ret, left) == Run(f, Turn(f, v, ret).0, Turn(f, v, ret).1, left - 1)
  {
  }
}
