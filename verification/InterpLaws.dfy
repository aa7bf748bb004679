/**
  Laws of the operations of Interp: what they compute is related to other operations and to the integers, and what
  they leave alone is listed for all of them.
 */
module InterpLaws {
  import opened Arithmetic
  import opened Interp

  /** The state after an operation. */
  function After(f: Function, op: Op, v: Vm): Vm
    requires Legal(op, v)
  {
    OpProcess(f, op, v, SUCCESS).0
  }

  function Status(f: Function, op: Op, v: Vm): int
    requires Legal(op, v)
  {
    OpProcess(f, op, v, SUCCESS).1
  }

  // ---------------------------------------------------------------- integers modulo 2^64

  const W := 0x1_0000_0000_0000_0000

  /** The value in range that differs by a multiple of 2^64. */
  lemma WrapsTo(x: int, k: int, y: s64)
    requires x == k * 0x1_0000_0000_0000_0000 + y
    ensures Wrap(x) == y
  {
    if y >= 0 {
      Quotient(x, W, k, y);
    } else {
      Quotient(x, W, k - 1, y + W);
    }
  }

  lemma WrapsBy(x: int) returns (k: int)
    ensures x == k * 0x1_0000_0000_0000_0000 + Wrap(x)
  {
    k := x / W + if Wrap(x) < 0 then 1 else 0;
    assert x == x / W * W + x % W;
  }

  /** Wrapping on the way makes no difference. */
  lemma WrapTwice(x: int, y: int)
    ensures Wrap(Wrap(x) + y) == Wrap(x + y)
  {
    var k := WrapsBy(x);
    var m := WrapsBy(Wrap(x) + y);
    assert x + y == (k + m) * W + Wrap(Wrap(x) + y);
    WrapsTo(x + y, k + m, Wrap(Wrap(x) + y));
  }

  lemma WrapNothing(x: s64)
    ensures Wrap(x) == x
  {
    WrapsTo(x, 0, x);
  }

  /** Adding and subtracting the same register are inverse, in both orders and whatever overflows. */
  lemma SubUndoesAdd(f: Function, v: Vm)
    ensures After(f, Isub, After(f, Iadd, v)) == v && After(f, Iadd, After(f, Isub, v)) == v
  {
    hide Wrap;
    WrapTwice(v.eax + v.ebx, 0 - v.ebx);
    WrapTwice(v.eax - v.ebx, v.ebx);
    WrapNothing(v.eax);
  }

  /** Sum, difference, product, negation and increment are those of the integers wherever these are in range. */
  lemma ExactInRange(f: Function, v: Vm, x: s64)
    ensures x == v.eax + v.ebx ==> After(f, Iadd, v) == v.(eax := x)
    ensures x == v.eax - v.ebx ==> After(f, Isub, v) == v.(eax := x)
    ensures x == v.eax * v.ebx ==> After(f, Imut, v) == v.(eax := x)
    ensures x == 0 - v.eax ==> After(f, Ineg, v) == v.(eax := x)
    ensures x == v.eax + 1 ==> After(f, Iinc, v) == v.(eax := x)
  {
    hide Wrap;
    WrapNothing(x);
  }

  /** Negation is subtraction from 0, and incrementing is adding 1. */
  lemma NegAndInc(f: Function, v: Vm)
    ensures After(f, Ineg, v) == After(f, Isub, v.(eax := 0, ebx := v.eax)).(ebx := v.ebx)
    ensures After(f, Iinc, v) == After(f, Iadd, v.(ebx := 1)).(ebx := v.ebx)
    ensures After(f, Isub, v) == After(f, Iadd, After(f, Ineg, v.(eax := v.ebx)).(ebx := v.eax)).(ebx := v.ebx)
  {
    hide Wrap;
    WrapTwice(0 - v.ebx, v.eax);
  }

  /** Multiplication is repeated addition. */
  lemma MulSteps(f: Function, v: Vm)
    ensures After(f, Imut, v.(ebx := 0)).eax == 0
    ensures v.ebx < 0x7fff_ffff_ffff_ffff ==>
              After(f, Imut, v.(ebx := v.ebx + 1)).eax
                == After(f, Iadd, v.(eax := After(f, Imut, v).eax, ebx := v.eax)).eax
  {
    hide Wrap;
    WrapNothing(0);
    WrapTwice(v.eax * v.ebx, v.eax);
    assert v.eax * (v.ebx + 1) == v.eax * v.ebx + v.eax;
  }

  /**
    Division and remainder belong together as in C: the dividend is the divisor times the quotient plus the remainder,
    and the remainder is smaller than the divisor and has the sign of the dividend. A divisor of 0 fails and changes
    nothing. Only the quotient of the least number and -1 is not in range.
   */
  lemma DivAndRem(f: Function, v: Vm)
    ensures v.ebx == 0 ==>
              OpProcess(f, Idiv, v, SUCCESS) == (v, DIV_ZERO) && OpProcess(f, Irem, v, SUCCESS) == (v, DIV_ZERO)
    ensures v.ebx != 0 ==>
              var q, r := After(f, Idiv, v).eax, After(f, Irem, v).eax;
              && After(f, Idiv, v) == v.(eax := q) && After(f, Irem, v) == v.(eax := r)
              && Status(f, Idiv, v) == Status(f, Irem, v) == SUCCESS
              && (if v.ebx > 0 then 0 < r + v.ebx && r < v.ebx else v.ebx < r && r + v.ebx < 0)
              && (v.eax >= 0 ==> r >= 0) && (v.eax <= 0 ==> r <= 0)
              && if v.eax == -0x8000_0000_0000_0000 && v.ebx == -1 then q == v.eax && r == 0
                 else v.eax == v.ebx * q + r
  {
    hide Wrap, Quot;
    if v.ebx != 0 {
      Truncates(v.eax, v.ebx);
      var q := Quot(v.eax, v.ebx);
      WrapNothing(v.eax - v.ebx * q);
      if v.eax == -0x8000_0000_0000_0000 && v.ebx == -1 {
        assert v.ebx * q == 0 - q;
        WrapsTo(q, 1, v.eax);
      } else {
        QuotientRange(v.eax, v.ebx);
        WrapNothing(q);
      }
    }
  }

  lemma QuotientRange(a: s64, b: s64)
    requires b != 0 && !(a == -0x8000_0000_0000_0000 && b == -1)
    ensures -0x8000_0000_0000_0000 <= Quot(a, b) < 0x8000_0000_0000_0000
  {
    hide Quot;
    Truncates(a, b);
    var q := Quot(a, b);
    if b == 1 {
    } else if b == -1 {
      assert b * q == 0 - q;
    } else if b > 1 {
      Larger(b, q);
    } else {
      var d: int := 0 - b;
      Larger(d, q);
      assert d * q == 0 - b * q;
    }
  }

  lemma Larger(d: int, q: int)
    requires d >= 2
    ensures (q >= 0 ==> d * q >= 2 * q) && (q <= 0 ==> d * q <= 2 * q)
  {
  }

  // ---------------------------------------------------------------- registers, operand stack and locals

  /** The registers are the four fields. */
  lemma Registers(f: Function, v: Vm, x: s64)
    ensures After(f, IconstReg(A, x), v) == v.(eax := x) && After(f, IconstReg(B, x), v) == v.(ebx := x)
    ensures After(f, IconstReg(C, x), v) == v.(ecx := x) && After(f, IconstReg(D, x), v) == v.(edx := x)
  {
  }

  /** Through the operand stack a value goes where it goes directly, as long as the stack has room. */
  lemma ThroughStack(f: Function, v: Vm, from: Reg, to: Reg, x: s64, idx: u32)
    requires |v.opStack| < 32 && idx < |v.locals|
    ensures After(f, PopReg(to), After(f, PushReg(from), v)) == After(f, Move(to, from), v)
    ensures After(f, PopReg(to), After(f, Iconst(x), v)) == After(f, IconstReg(to, x), v)
    ensures After(f, PopReg(to), After(f, Iload(idx), v)) == After(f, IloadReg(to, idx), v)
  {
    PushedTwice(v.opStack, Get(v, from));
    PushedTwice(v.opStack, x);
    PushedTwice(v.opStack, ValueOf(v.locals[idx]));
  }

  lemma PushedTwice(s: seq<s64>, x: s64)
    ensures (s + [x])[..|s + [x]| - 1] == s && (s + [x])[|s + [x]| - 1] == x
  {
  }

  /** A move takes the value of its source, and constants and moves agree. */
  lemma MoveConstant(f: Function, v: Vm, from: Reg, to: Reg, x: s64)
    ensures After(f, Move(to, from), After(f, IconstReg(from, x), v))
         == After(f, IconstReg(to, x), After(f, IconstReg(from, x), v))
    ensures After(f, Move(to, to), v) == v
  {
  }

  /** Popping an empty operand stack gives 0 and leaves it empty. */
  lemma PopEmpty(f: Function, v: Vm, to: Reg)
    requires v.opStack == []
    ensures After(f, PopReg(to), v) == After(f, IconstReg(to, 0), v)
  {
  }

  /** What is stored in a local is loaded from it, and from no other. */
  lemma StoreLoad(f: Function, v: Vm, from: Reg, to: Reg, idx: u32, other: u32)
    requires idx < |v.locals| && other < |v.locals|
    ensures var r := After(f, IstoreReg(from, idx), v);
            && |r.locals| == |v.locals|
            && After(f, IloadReg(to, other), r) ==
                 if other == idx then After(f, Move(to, from), r)
                 else After(f, IloadReg(to, other), v).(locals := r.locals)
    ensures |v.opStack| == 1 ==>
              After(f, Istore(idx), v) ==
                var r := After(f, IstoreReg(A, idx), v.(eax := v.opStack[0])); r.(eax := v.eax, opStack := [])
  {
  }

  /** What is pushed onto the locals is the last of them, as long as the frame has room. */
  lemma PushLoad(f: Function, v: Vm, to: Reg, x: s64)
    requires |v.locals| < v.maxSize && |v.locals| < 0x1_0000_0000
    ensures var n, r := |v.locals|, After(f, PushIconst(x), v);
            && |r.locals| == n + 1 && r.locals[..n] == v.locals
            && After(f, IloadReg(to, n), r) == After(f, IconstReg(to, x), r)
    ensures var n, r := |v.locals|, After(f, PushI, v);
            && |r.locals| == n + 1 && r.locals[..n] == v.locals
            && After(f, IloadReg(to, n), r) == After(f, Move(to, A), r)
    ensures var n, r := |v.locals|, After(f, PushNull, v);
            && |r.locals| == n + 1 && r.locals[..n] == v.locals
            && After(f, IloadReg(to, n), r) == After(f, IconstReg(to, 0), r)
  {
  }

  // ---------------------------------------------------------------- logic and conditions

  /** Not, And and Or give 0 or 1 by whether their operands are 0. */
  lemma Logic(f: Function, v: Vm)
    ensures var not, and, or := After(f, Not, v), After(f, And, v), After(f, Or, v);
            && not.eax + 0 in {0, 1} && and.eax + 0 in {0, 1} && or.eax + 0 in {0, 1}
            && After(f, Not, not).eax == (if v.eax == 0 then 0 else 1)
            && (v.ebx == 0 ==> and.eax == 0 && or.eax == After(f, Not, not).eax)
            && (v.ebx != 0 ==> or.eax == 1 && and.eax == After(f, Not, not).eax)
            && not == v.(eax := not.eax) && and == v.(eax := and.eax) && or == v.(eax := or.eax)
  {
  }

  /** De Morgan. */
  lemma DeMorgan(f: Function, v: Vm)
    ensures var a, b := After(f, Not, v).eax, After(f, Not, v.(eax := v.ebx)).eax;
            && After(f, Not, After(f, And, v)).eax == After(f, Or, v.(eax := a, ebx := b)).eax
            && After(f, Not, After(f, Or, v)).eax == After(f, And, v.(eax := a, ebx := b)).eax
  {
  }

  predicate Jumps(f: Function, c: Cond, v: Vm, pc: u32) { After(f, Jcond(c, pc), v) == After(f, Jump(pc), v) }

  /**
    A conditional jump jumps or does nothing. Of equal, smaller and larger exactly one jumps, exchanging the operands
    exchanges smaller and larger, equal is a difference of 0, and the other three are the opposites.
   */
  lemma Conditions(f: Function, c: Cond, v: Vm, pc: u32)
    requires pc != v.pc
    ensures After(f, Jump(pc), v) == v.(pc := pc)
    ensures Jumps(f, c, v, pc) || After(f, Jcond(c, pc), v) == v
    ensures var swapped := v.(eax := v.ebx, ebx := v.eax);
            && (Jumps(f, Je, v, pc) <==> After(f, Isub, v).eax == 0)
            && (Jumps(f, Jlg, v, pc) <==> Jumps(f, Jsm, swapped, pc))
            && (Jumps(f, Jsm, v, pc) <==> !Jumps(f, Je, v, pc) && !Jumps(f, Jlg, v, pc))
            && (v.eax < v.ebx ==> Jumps(f, Jsm, v, pc))
            && (Jumps(f, Jne, v, pc) <==> !Jumps(f, Je, v, pc))
            && (Jumps(f, Jlge, v, pc) <==> !Jumps(f, Jsm, v, pc))
            && (Jumps(f, Jsme, v, pc) <==> !Jumps(f, Jlg, v, pc))
  {
    hide Wrap, Jumps, OpProcess;
    JumpsIff(f, c, v, pc);
    var swapped := v.(eax := v.ebx, ebx := v.eax);
    JumpsIff(f, Jsm, swapped, pc);
    JumpsIff(f, Je, v, pc);
    JumpsIff(f, Jlg, v, pc);
    JumpsIff(f, Jsm, v, pc);
    JumpsIff(f, Jne, v, pc);
    JumpsIff(f, Jlge, v, pc);
    JumpsIff(f, Jsme, v, pc);
    DifferenceZero(f, v);
  }

  lemma JumpsIff(f: Function, c: Cond, v: Vm, pc: u32)
    requires pc != v.pc
    ensures Jumps(f, c, v, pc) <==> Holds(c, v.eax, v.ebx)
    ensures After(f, Jump(pc), v) == v.(pc := pc) && (Jumps(f, c, v, pc) || After(f, Jcond(c, pc), v) == v)
  {
    hide Holds;
  }

  lemma DifferenceZero(f: Function, v: Vm)
    ensures After(f, Isub, v).eax == 0 <==> v.eax == v.ebx
  {
    hide Wrap;
    var k := WrapsBy(v.eax - v.ebx);
    WrapNothing(0);
  }

  /** Adding 1 makes larger, and whoever is smaller is then at most equal. */
  lemma SmallerOrders(f: Function, v: Vm, pc: u32)
    requires pc != v.pc && v.eax < 0x7fff_ffff_ffff_ffff
    ensures Jumps(f, Jsm, v.(ebx := After(f, Iinc, v).eax), pc)
    ensures Jumps(f, Jsm, v, pc) ==> Jumps(f, Jsme, After(f, Iinc, v), pc)
  {
    hide Wrap;
    WrapNothing(v.eax + 1);
  }

  /** A return leaves the loop: the next counter is behind every slot. */
  lemma ReturnEnds(f: Function, v: Vm, ret: int)
    requires InLoop(f, v) && |f.ops| < 0xffff_ffff && (f.ops[v.pc] == Iret || f.ops[v.pc] == Ret)
    ensures Legal(f.ops[v.pc], v) && !InLoop(f, Turn(f, v, ret).0) && Turn(f, v, ret).1 == SUCCESS
    ensures Turn(f, v, ret).0 == v.(pc := 0xffff_ffff)
  {
  }

  // ---------------------------------------------------------------- what stays

  predicate Sets(op: Op, r: Reg) {
    || ((op.Move? || op.PopReg? || op.IconstReg? || op.IloadReg?) && op.to == r)
    || (r == A && (op.Iadd? || op.Isub? || op.Imut? || op.Idiv? || op.Irem? || op.Ineg? || op.Iinc?
                   || op.Not? || op.And? || op.Or?))
  }

  /** Every operation leaves alone what it is not for. */
  lemma Leaves(f: Function, op: Op, v: Vm, status: int)
    requires Legal(op, v)
    ensures var r := OpProcess(f, op, v, status).0;
            && (!Sets(op, A) ==> r.eax == v.eax) && (!Sets(op, B) ==> r.ebx == v.ebx)
            && (!Sets(op, C) ==> r.ecx == v.ecx) && (!Sets(op, D) ==> r.edx == v.edx)
            && (!op.PushReg? && !op.Iconst? && !op.Iload? && !op.PopReg? && !op.Istore? ==> r.opStack == v.opStack)
            && (!op.Istore? && !op.IstoreReg? && !op.PushI? && !op.PushIconst? && !op.PushNull? ==>
                  r.locals == v.locals)
            && (!op.Acatch? && !op.Jump? && !op.Jcond? && !op.Iret? && !op.Ret? ==> r.pc == v.pc)
            && (!op.Acatch? ==> r.exc == v.exc) && r.maxSize == v.maxSize && r.hasFunction == v.hasFunction
  {
    hide Wrap, Quot, Catch;
    if op.Acatch? {
      CatchLeaves(f, v, status);
    }
  }

  lemma CatchLeaves(f: Function, v: Vm, status: int)
    ensures Catch(f, v, status) == v.(pc := Catch(f, v, status).pc, exc := Catch(f, v, status).exc)
  {
    HandlerLeaves(f.handlers, if v.exc.NoExc? then v.(exc := Recorded(status)) else v);
  }

  lemma {:induction false} HandlerLeaves(handlers: seq<Handler>, v: Vm)
    ensures var r := HandlerExcp(handlers, v).0; r == v.(pc := r.pc, exc := r.exc)
  {
    if handlers != [] {
      HandlerLeaves(handlers[1..], v);
    }
  }

  /** An operation fails in exactly these cases, and then changes nothing. */
  lemma Fails(f: Function, op: Op, v: Vm, status: int)
    requires Legal(op, v)
    ensures var (r, ret) := OpProcess(f, op, v, status);
            && (ret == DIV_ZERO <==> (op.Idiv? || op.Irem?) && v.ebx == 0)
            && (ret == OVER_FLOW <==>
                  || ((op.PushReg? || op.Iconst? || op.Iload?) && |v.opStack| >= 32)
                  || ((op.PushI? || op.PushIconst? || op.PushNull?) && |v.locals| >= v.maxSize))
            && (ret == SUCCESS || ret == DIV_ZERO || ret == OVER_FLOW) && (ret != SUCCESS ==> r == v)
  {
    hide Wrap, Quot, Catch;
  }

  // ---------------------------------------------------------------- the catch operation

  /** The place of the first handler that is found for an exception, or the number of handlers. */
  function FirstFound(handlers: seq<Handler>, e: Exc): (k: nat)
    ensures k <= |handlers| && (k < |handlers| ==> Finds(handlers[k], e))
    ensures forall j :: 0 <= j < k ==> !Finds(handlers[j], e)
  {
    if handlers == [] || Finds(handlers[0], e) then 0 else 1 + FirstFound(handlers[1..], e)
  }

  /**
    What the catch operation does at slot 0: without an exception the status is recorded; the first handler found takes
    over, at its address, and gives the exception back unless it throws it again; without one the loop is left.
   */
  lemma Catches(f: Function, v: Vm, status: int)
    requires v.pc == 0
    ensures var e := if v.exc.NoExc? then Recorded(status) else v.exc;
            var k := if v.hasFunction then FirstFound(f.handlers, e) else |f.handlers|;
            OpProcess(f, Acatch, v, status) ==
              if k < |f.handlers| then
                var h := f.handlers[k];
                (v.(pc := h.entAddr, exc := if h.throwAgain then e else Released), SUCCESS)
              else (v.(pc := 0xffff_fffe, exc := e), SUCCESS)
  {
    hide HandlerExcp, FirstFound;
    if v.hasFunction {
      CatchesFirst(f.handlers, if v.exc.NoExc? then v.(exc := Recorded(status)) else v);
    }
  }

  lemma {:induction false} CatchesFirst(handlers: seq<Handler>, v: Vm)
    requires v.pc == 0 && v.exc != NoExc
    ensures var k := FirstFound(handlers, v.exc);
            HandlerExcp(handlers, v) ==
              if k < |handlers| then
                (v.(pc := handlers[k].entAddr, exc := if handlers[k].throwAgain then v.exc else Released), true)
              else (v, false)
  {
    if handlers != [] {
      CatchesFirst(handlers[1..], v);
    }
  }
}
