/** portASM.asm: interrupt entry and exit, the SVC handler, and the two context macros.
    The class executes the assembly instruction by instruction; the functions above it say in
    closed form what each routine does to the machine. */
module PortAsm {
  import opened Arm

  // ---- closed forms ------------------------------------------------------------------

  /** Bit 2 of a stack pointer: the padding IRQ_Handler inserts before it calls C. */
  function Padding(sp: Word): Word {
    if sp / 4 % 2 == 1 then 4 else 0
  }

  /** What IRQ_Handler pushes on the SVC stack: {r0-r4, r12, lr}, or {r0-r4, r12} as before lr
      was added. */
  datatype Frame = WithLr | WithoutLr {
    function Bytes(): nat {
      if WithLr? then 28 else 24
    }
  }

  /** The pushed registers, ascending. */
  function IsrFrame(f: Frame, m: Machine): (ws: seq<Word>)
    ensures 4 * |ws| == f.Bytes()
  {
    m.r[..5] + [m.r[12]] + if f.WithLr? then [m.lrSvc] else []
  }

  /** Where the padding word of an interrupt taken with this sp_svc is stored; also sp_svc at
      every C call IRQ_Handler makes for that interrupt. */
  function FrameBase(f: Frame, spSvc: Word): Word {
    var frame := Sub32(spSvc, f.Bytes());
    Sub32(Sub32(frame, Padding(frame)), 4)
  }

  function EntryMem(f: Frame, m: Machine): Mem {
    var ret := Sub32(m.spIrq, 4);
    var frame := Sub32(m.spSvc, f.Bytes());
    Wr(m.mem[ret := m.pc][Sub32(ret, 4) := m.cpsr.Encode()], frame, IsrFrame(f, m))
    [FrameBase(f, m.spSvc) := Padding(frame)]
  }

  /** IRQ_Handler up to and including BLX vApplicationIRQHandler. */
  function Entered(f: Frame, m: Machine, ack: CReturn, sym: Symbols): Machine {
    m.(r := [ack.r0, ack.r1, ack.r2, ack.r3, ack.r0] + m.r[5..12] + [ack.r12],
       pc := sym.appHandler,
       cpsr := m.cpsr.Taken(SVC_MODE).(nzcv := ack.nzcv),
       spIrq := Sub32(Sub32(m.spIrq, 4), 4), lrIrq := m.cpsr.Encode(), spsrIrq := m.cpsr,
       spSvc := FrameBase(f, m.spSvc), lrSvc := sym.afterAppHandler,
       fp := ClobberedFp(m.fp, ack), fpscr := ack.fpscr,
       mem := EntryMem(f, m) + ack.writes,
       nesting := Add32(m.nesting, 1),
       epi := m.epi[3 := FrameBase(f, m.spSvc)][4 := Padding(Sub32(m.spSvc, f.Bytes()))])
  }

  /** A C function returns to the assembly in the current mode. */
  function Returned(m: Machine, c: CReturn): Machine {
    m.(r := Clobbered(m.r, c), mem := m.mem + c.writes, cpsr := m.cpsr.(nzcv := c.nzcv),
       fp := ClobberedFp(m.fp, c), fpscr := c.fpscr,
       lrSys := if m.cpsr.mode == SYS_MODE then c.lr else m.lrSys,
       lrSvc := if m.cpsr.mode == SYS_MODE then m.lrSvc else c.lr)
  }

  /** IRQ_Handler from the return of vApplicationIRQHandler through the nesting decrement:
      end of interrupt, exit snapshot, padding removed.  r0-r3 are dead here. */
  function Finished(m: Machine, eoi: CReturn): Machine {
    var mem := m.mem + eoi.writes;
    var padding := Rd(mem, m.spSvc);
    var sp := Add32(Add32(m.spSvc, 4), padding);
    var masked := m.cpsr.(irqOff := true, nzcv := eoi.nzcv);
    m.(r := m.r[12 := eoi.r12], cpsr := masked, lrSvc := eoi.lr, mem := mem, spSvc := sp,
       fp := ClobberedFp(m.fp, eoi), fpscr := eoi.fpscr,
       nesting := Sub32(m.nesting, 1),
       epi := m.epi[5 := masked.Encode()][7 := m.r[4]][0 := m.spSvc][1 := padding][2 := sp])
  }

  /** Both stacks popped: the interrupted r0-r4, r12 and, if it was pushed, lr_svc are back, LR_irq
      and SPSR_irq hold the return state, and the core is in IRQ mode. */
  function FramesPopped(f: Frame, m: Machine): Machine {
    var w := Rds(m.mem, m.spSvc, f.Bytes() / 4);
    m.(r := w[..5] + m.r[5..12] + [w[5]], lrSvc := if f.WithLr? then w[6] else m.lrSvc,
       spSvc := Add32(m.spSvc, f.Bytes()),
       cpsr := m.cpsr.(mode := IRQ_MODE),
       spsrIrq := Psr.Decode(Rd(m.mem, m.spIrq)), lrIrq := Rd(m.mem, Add32(m.spIrq, 4)),
       spIrq := Add32(Add32(m.spIrq, 4), 4))
  }

  /** The test IRQ_Handler makes: nesting count back to 0 and a switch requested. */
  predicate Switches(m: Machine) {
    Sub32(m.nesting, 1) == 0 && m.yieldRequired != 0
  }

  /** g_r8_sw after counting a switch in slot i and its nesting level in slot i + 1. */
  function Counted(m: Machine, i: nat): Diag4
    requires i == 0 || i == 2
  {
    m.sw[i := Add32(m.sw[i], 1)][i + 1 := if m.nesting > m.sw[i + 1] then m.nesting else m.sw[i + 1]]
  }

  /** portSAVE_CONTEXT's floating-point part. */
  function SavedFp(m: Machine): Machine {
    if m.hasFpu == 0 then
      var sp := Sub32(m.spSys, 4);
      m.(spSys := sp, mem := m.mem[sp := m.hasFpu])
    else
      var sp1 := Sub32(m.spSys, 128);
      var sp2 := Sub32(sp1, 4);
      var sp3 := Sub32(sp2, 4);
      m.(spSys := sp3, mem := Wr(m.mem, sp1, m.fp)[sp2 := m.fpscr][sp3 := m.hasFpu])
  }

  /** portSAVE_CONTEXT with return state (ret, psr). */
  function Saved(fpu: bool, m: Machine, ret: Word, psr: Psr): Machine
    requires m.cur < |m.tops|
  {
    var sp1 := Sub32(m.spSys, 8);
    var sp2 := Sub32(sp1, 56);
    var sp3 := Sub32(sp2, 4);
    var core := m.(spSys := sp3,
                   mem := Wr(Wr(m.mem, sp1, [ret, psr.Encode()]), sp2, m.r + [m.lrSys])[sp3 := m.critical]);
    var all := if fpu then SavedFp(core) else core;
    all.(tops := m.tops[m.cur := all.spSys])
  }

  /** portRESTORE_CONTEXT's floating-point part, sp already at the task's frame. */
  function RestoredFp(m: Machine): Machine {
    var has := Rd(m.mem, m.spSys);
    var sp1 := Add32(m.spSys, 4);
    if has == 0 then m.(spSys := sp1, hasFpu := has)
    else
      m.(spSys := Add32(Add32(sp1, 4), 128), hasFpu := has,
         fpscr := Rd(m.mem, sp1), fp := Rds(m.mem, Add32(sp1, 4), 32))
  }

  /** The rest of portRESTORE_CONTEXT, ending in RFEIA. */
  function RestoredCore(m: Machine): Machine {
    var sp1 := Add32(m.spSys, 4);
    var w := Rds(m.mem, sp1, 14);
    var sp2 := Add32(sp1, 56);
    m.(critical := Rd(m.mem, m.spSys), r := w[..13], lrSys := w[13],
       pc := Rd(m.mem, sp2), cpsr := Psr.Decode(Rd(m.mem, Add32(sp2, 4))), spSys := Add32(sp2, 8))
  }

  /** portRESTORE_CONTEXT. */
  function Restored(fpu: bool, m: Machine): Machine
    requires m.cur < |m.tops|
  {
    var at := m.(spSys := m.tops[m.cur]);
    RestoredCore(if fpu then RestoredFp(at) else at)
  }

  /** vTaskSwitchContext has picked `next`; r0-r12, lr and the flags are dead. */
  function Selected(m: Machine, sched: CReturn, next: nat): Machine {
    m.(mem := m.mem + sched.writes, fp := ClobberedFp(m.fp, sched), fpscr := sched.fpscr, cur := next)
  }

  /** Save the running task with return state (ret, psr), let vTaskSwitchContext pick `next`,
      and restore that task. */
  function Switched(fpu: bool, m: Machine, ret: Word, psr: Psr, sched: CReturn, next: nat): Machine
    requires m.cur < |m.tops| && next < |m.tops|
  {
    Restored(fpu, Selected(Saved(fpu, m, ret, psr), sched, next))
  }

  /** portRESTORE_CONTEXT overwrites r0-r12, lr_sys and CPSR whatever they held. */
  lemma RestoreIgnores(fpu: bool, m: Machine, n: Machine)
    requires n == m.(r := n.r, cpsr := n.cpsr, lrSys := n.lrSys) && m.cur < |m.tops|
    ensures Restored(fpu, m) == Restored(fpu, n)
  {
  }

  /** The frame pops overwrite r0-r4 and r12; the flags they run with do not matter. */
  lemma PopIgnores(f: Frame, m: Machine, n: Machine)
    requires n == m.(r := n.r, cpsr := n.cpsr) && n.r[5..12] == m.r[5..12]
    ensures FramesPopped(f, n) == FramesPopped(f, m).(cpsr := n.cpsr.(mode := IRQ_MODE))
  {
  }

  lemma SwitchIgnores(fpu: bool, m: Machine, n: Machine, ret: Word, psr: Psr, sched: CReturn, next: nat)
    requires n == m.(cpsr := n.cpsr) && m.cur < |m.tops| && next < |m.tops|
    ensures Switched(fpu, m, ret, psr, sched, next) == Switched(fpu, n, ret, psr, sched, next)
  {
    var x, y := Saved(fpu, m, ret, psr), Saved(fpu, n, ret, psr);
    RestoreIgnores(fpu, Selected(x, sched, next), Selected(y, sched, next));
  }

  /** The complete exit of IRQ_Handler, both paths. */
  function Exited(f: Frame, fpu: bool, m: Machine, eoi: CReturn, sched: CReturn, next: nat): Machine
    requires m.cur < |m.tops| && next < |m.tops|
  {
    var d := Finished(m, eoi);
    var u := FramesPopped(f, d);
    if !Switches(m) then u.(cpsr := u.spsrIrq, pc := u.lrIrq)
    else Switched(fpu, u.(yieldRequired := 0, sw := Counted(d, 0)), u.lrIrq, u.spsrIrq, sched, next)
  }

  /** What any exit leaves in g_r8_epi: it runs masked even if it was entered unmasked, names the
      interrupt r4 held, and shows where the padding word was and the stack pointer behind it. */
  lemma ExitSnapshotIs(f: Frame, fpu: bool, m: Machine, eoi: CReturn, sched: CReturn, next: nat)
    requires m.cur < |m.tops| && next < |m.tops|
    ensures var epi := Exited(f, fpu, m, eoi, sched, next).epi;
            && epi[7] == m.r[4] && epi[6] == m.epi[6] && epi[5] / 0x80 % 2 == 1 && epi[5] % 0x20 == m.cpsr.mode
            && epi[0] == m.spSvc && epi[1] == Rd(m.mem + eoi.writes, m.spSvc)
            && epi[2] == Add32(Add32(m.spSvc, 4), epi[1])
  {
    m.cpsr.(irqOff := true, nzcv := eoi.nzcv).LowFields();
    assert Exited(f, fpu, m, eoi, sched, next).epi == Finished(m, eoi).epi;
  }

  /** Which of g_r8_sw[1] and [3] are 0: those that never counted a switch made while nested. */
  lemma NestedSwitchIsRecorded(m: Machine, i: nat)
    requires i == 0 || i == 2
    ensures var n := Counted(m, i);
            && n[i + 1] >= m.nesting && n[i + 1] >= m.sw[i + 1]
            && (n[i + 1] == 0 <==> m.nesting == 0 && m.sw[i + 1] == 0)
            && (n[i + 1] == m.nesting || n[i + 1] == m.sw[i + 1]) && n[i] == Add32(m.sw[i], 1)
            && forall j :: 0 <= j < 4 && j != i && j != i + 1 ==> n[j] == m.sw[j]
  {
  }

  lemma ExitCounts(f: Frame, fpu: bool, m: Machine, eoi: CReturn, sched: CReturn, next: nat)
    requires m.cur < |m.tops| && next < |m.tops|
    ensures var sw := Exited(f, fpu, m, eoi, sched, next).sw;
            sw[2] == m.sw[2] && sw[0] == if Switches(m) then Add32(m.sw[0], 1) else m.sw[0]
  {
  }

  /** An SVC instruction, with return address `ret`, through SVC_Handler. */
  function Yielded(fpu: bool, m: Machine, ret: Word, sched: CReturn, next: nat): Machine
    requires m.cur < |m.tops| && next < |m.tops|
  {
    Switched(fpu, m.(lrSvc := ret, spsrSvc := m.cpsr, sw := Counted(m, 2)), ret, m.cpsr, sched, next)
  }

  lemma YieldCounts(fpu: bool, m: Machine, ret: Word, sched: CReturn, next: nat)
    requires m.cur < |m.tops| && next < |m.tops|
    ensures var sw := Yielded(fpu, m, ret, sched, next).sw; sw[2] == Add32(m.sw[2], 1) && sw[0] == m.sw[0]
  {
  }

  // ---- the assembly ------------------------------------------------------------------

  /** Addresses the linker gives to the variables and call sites the assembly names. */
  datatype Symbols = Symbols(
    nesting: Word, yieldRequired: Word, critical: Word, hasFpu: Word, currentTcb: Word,
    epi: Word, sw: Word, switchContext: Word,
    appHandler: Word, afterGetActive: Word, afterAppHandler: Word, afterEoi: Word, afterSwitch: Word)

  /** The C functions the assembly calls, and one such call: what it passes in r0, if the function
      takes anything, and where it is to return to. */
  datatype Callee = GetActiveIrq | AppHandler | EndOfInterrupt | SwitchContext
  datatype CCall = CCall(to: Callee, args: seq<Word>, lr: Word)

  function Passing(to: Callee, r: Regs): seq<Word> {
    if to == AppHandler || to == EndOfInterrupt then [r[0]] else []
  }

  class Cortex {
    const frame: Frame
    const fpu: bool
    const sym: Symbols
    var m: Machine
    ghost var calls: seq<CCall>

    /** The core takes an IRQ between two instructions, then runs IRQ_Handler up to the call of
        vApplicationIRQHandler; `ack` is what FreeRTOS_GetActiveIRQ returns. */
    method IrqEntry(ack: CReturn)
      modifies this
      ensures m == Entered(frame, old(m), ack, sym)
      ensures calls == old(calls) + [CCall(GetActiveIrq, [], sym.afterGetActive),
                                     CCall(AppHandler, [ack.r0], sym.afterAppHandler)]
      ensures m.r[0] == m.r[4] == ack.r0
    {
      TakeIrq();
      PushFrame();
      // ulPortInterruptNesting++
      m := m.(r := m.r[3 := sym.nesting]);
      m := m.(r := m.r[2 := m.nesting]);
      m := m.(r := m.r[2 := Add32(m.r[2], 1)]);
      m := m.(nesting := m.r[2]);
      PadStack();
      CallHandler(ack);
    }

    /** BLX FreeRTOS_GetActiveIRQ; MOV r4, r0; BLX vApplicationIRQHandler. */
    method CallHandler(ack: CReturn)
      requires m.cpsr.mode == SVC_MODE
      modifies this
      ensures m == old(m).(r := [ack.r0, ack.r1, ack.r2, ack.r3, ack.r0] + old(m).r[5..12] + [ack.r12],
                           pc := sym.appHandler, cpsr := old(m).cpsr.(nzcv := ack.nzcv),
                           lrSvc := sym.afterAppHandler, mem := old(m).mem + ack.writes,
                           fp := ClobberedFp(old(m).fp, ack), fpscr := ack.fpscr)
      ensures calls == old(calls) + [CCall(GetActiveIrq, [], sym.afterGetActive),
                                     CCall(AppHandler, [ack.r0], sym.afterAppHandler)]
    {
      Blx(GetActiveIrq, sym.afterGetActive);
      Return(ack);
      m := m.(r := m.r[4 := m.r[0]]);
      Blx(AppHandler, sym.afterAppHandler);
      m := m.(pc := sym.appHandler);
      assert m.r == [ack.r0, ack.r1, ack.r2, ack.r3, ack.r0] + m.r[5..12] + [ack.r12];
    }

    /** PUSH {r0-r4, r12, lr}, or PUSH {r0-r4, r12}. */
    method PushFrame()
      modifies `m
      ensures var sp := Sub32(old(m).spSvc, frame.Bytes());
              m == old(m).(spSvc := sp, mem := Wr(old(m).mem, sp, IsrFrame(frame, old(m))))
    {
      if frame == WithLr {
        m := m.(spSvc := Sub32(m.spSvc, 28));
        m := m.(mem := Wr(m.mem, m.spSvc, m.r[..5] + [m.r[12]] + [m.lrSvc]));
      } else {
        m := m.(spSvc := Sub32(m.spSvc, 24));
        m := m.(mem := Wr(m.mem, m.spSvc, m.r[..5] + [m.r[12]] + []));
      }
    }

    /** IRQ exception entry, then SUB lr, lr, #4 through CPS #SVC_MODE. */
    method TakeIrq()
      modifies `m
      ensures var ret := Sub32(old(m).spIrq, 4);
              m == old(m).(cpsr := old(m).cpsr.Taken(SVC_MODE), spsrIrq := old(m).cpsr,
                           lrIrq := old(m).cpsr.Encode(), spIrq := Sub32(ret, 4),
                           mem := old(m).mem[ret := old(m).pc][Sub32(ret, 4) := old(m).cpsr.Encode()])
    {
      m := m.(lrIrq := Add32(m.pc, 4), spsrIrq := m.cpsr, cpsr := m.cpsr.Taken(IRQ_MODE));
      // SUB lr, lr, #4
      m := m.(lrIrq := Sub32(m.lrIrq, 4));
      // PUSH {lr}; MRS lr, SPSR; PUSH {lr}
      m := m.(spIrq := Sub32(m.spIrq, 4));
      m := m.(mem := m.mem[m.spIrq := m.lrIrq]);
      m := m.(lrIrq := m.spsrIrq.Encode());
      m := m.(spIrq := Sub32(m.spIrq, 4));
      m := m.(mem := m.mem[m.spIrq := m.lrIrq]);
      // CPS #SVC_MODE
      m := m.(cpsr := m.cpsr.(mode := SVC_MODE));
    }

    /** Clear bit 2 of sp_svc, push the amount, and read it back for the entry snapshot. */
    method PadStack()
      modifies `m
      ensures var padding := Padding(old(m).spSvc);
              var sp := Sub32(Sub32(old(m).spSvc, padding), 4);
              m == old(m).(r := m.r, spSvc := sp, mem := old(m).mem[sp := padding],
                           epi := old(m).epi[3 := sp][4 := padding])
      ensures m.r[5..12] == old(m).r[5..12]
    {
      // MOV r2, sp; AND r2, r2, #4
      m := m.(r := m.r[2 := m.spSvc]);
      m := m.(r := m.r[2 := if m.r[2] / 4 % 2 == 1 then 4 else 0]);
      // SUB sp, sp, r2; PUSH {r2}
      m := m.(spSvc := Sub32(m.spSvc, m.r[2]));
      m := m.(spSvc := Sub32(m.spSvc, 4));
      m := m.(mem := m.mem[m.spSvc := m.r[2]]);
      // g_r8_epi[3] and g_r8_epi[4]
      m := m.(r := m.r[3 := sym.epi]);
      m := m.(epi := m.epi[3 := m.spSvc]);
      m := m.(r := m.r[1 := Rd(m.mem, m.spSvc)]);
      m := m.(epi := m.epi[4 := m.r[1]]);
    }

    /** BLX of a C function: lr of the current mode takes the return address. */
    method Blx(to: Callee, ret: Word)
      modifies this
      ensures m == if old(m).cpsr.mode == SYS_MODE then old(m).(lrSys := ret) else old(m).(lrSvc := ret)
      ensures calls == old(calls) + [CCall(to, Passing(to, old(m).r), ret)]
    {
      calls := calls + [CCall(to, Passing(to, m.r), ret)];
      if m.cpsr.mode == SYS_MODE {
        m := m.(lrSys := ret);
      } else {
        m := m.(lrSvc := ret);
      }
    }

    /** The return of a C function to the assembly. */
    method Return(c: CReturn)
      modifies `m
      ensures m == Returned(old(m), c)
    {
      m := m.(r := Clobbered(m.r, c), mem := m.mem + c.writes, cpsr := m.cpsr.(nzcv := c.nzcv));
      m := m.(fp := ClobberedFp(m.fp, c), fpscr := c.fpscr);
      if m.cpsr.mode == SYS_MODE {
        m := m.(lrSys := c.lr);
      } else {
        m := m.(lrSvc := c.lr);
      }
    }

    /** IRQ_Handler after vApplicationIRQHandler has returned.  `eoi` is what
        FreeRTOS_EndOfInterrupt leaves, `sched` and `next` what vTaskSwitchContext does. */
    method IrqExit(eoi: CReturn, sched: CReturn, next: nat) returns (switched: bool)
      requires m.cpsr.mode == SVC_MODE && m.cur < |m.tops| && next < |m.tops|
      modifies this
      ensures m == Exited(frame, fpu, old(m), eoi, sched, next)
      ensures switched == Switches(old(m))
      // the interrupt ended is the one r4 has kept; a task is selected only for a switch
      ensures calls == old(calls) + [CCall(EndOfInterrupt, [old(m).r[4]], sym.afterEoi)]
                       + (if switched then [CCall(SwitchContext, [], sym.afterSwitch)] else [])
      // the exit runs masked, however it was entered, and says which interrupt it ends
      ensures m.epi[5] / 0x80 % 2 == 1 && m.epi[6] == old(m).epi[6] && m.epi[7] == old(m).r[4]
    {
      ExitSnapshotIs(frame, fpu, m, eoi, sched, next);
      FinishInterrupt(eoi);
      ghost var f := Finished(old(m), eoi);
      switched := TestSwitch();
      if switched {
        ServeRequest();
        f := f.(yieldRequired := 0, sw := Counted(f, 0));
      }
      PopIgnores(frame, f, m);
      PopFrames();
      if switched {
        SwitchIgnores(fpu, FramesPopped(frame, f), m, m.lrIrq, m.spsrIrq, sched, next);
        SwitchTask(sched, next);
      } else {
        // MOVS PC, LR
        m := m.(pc := m.lrIrq, cpsr := m.spsrIrq);
      }
    }

    /** Count the switch; MOV r0, #0; STR r0, [r1]. */
    method ServeRequest()
      modifies `m
      ensures m == old(m).(r := m.r, cpsr := old(m).cpsr.(nzcv := m.cpsr.nzcv),
                          sw := Counted(old(m), 0), yieldRequired := 0)
      ensures m.r[5..12] == old(m).r[5..12]
    {
      CountSwitch(0);
      m := m.(r := m.r[0 := 0]);
      m := m.(yieldRequired := m.r[0]);
    }

    /** CMP r0, #0; BNE exit_without_switch; load ulPortYieldRequired; CMP; BNE. */
    method TestSwitch() returns (switch: bool)
      requires m.r[0] == m.nesting
      modifies `m
      ensures m == old(m).(r := m.r, cpsr := old(m).cpsr.(nzcv := m.cpsr.nzcv))
      ensures m.r[5..12] == old(m).r[5..12]
      ensures switch == (m.nesting == 0 && m.yieldRequired != 0)
    {
      CompareDecides(m.cpsr, m.r[0], 0);
      m := m.(cpsr := m.cpsr.(nzcv := Compared(m.r[0], 0)));
      if Ne(m.cpsr) {
        return false;
      }
      m := m.(r := m.r[1 := sym.yieldRequired]);
      m := m.(r := m.r[0 := m.yieldRequired]);
      CompareDecides(m.cpsr, m.r[0], 0);
      m := m.(cpsr := m.cpsr.(nzcv := Compared(m.r[0], 0)));
      switch := Ne(m.cpsr);
    }

    /** CPSID i through the store that decrements ulPortInterruptNesting. */
    method FinishInterrupt(eoi: CReturn)
      requires m.cpsr.mode == SVC_MODE
      modifies this
      ensures calls == old(calls) + [CCall(EndOfInterrupt, [old(m).r[4]], sym.afterEoi)]
      ensures m == Finished(old(m), eoi).(r := m.r, cpsr := m.cpsr)
      ensures m.cpsr.mode == SVC_MODE
      ensures m.r[0] == m.nesting && m.r[5..12] == old(m).r[5..12]
    {
      EndInterrupt(eoi);
      RemovePadding();
      // ulPortInterruptNesting--
      m := m.(r := m.r[1 := sym.nesting]);
      m := m.(r := m.r[0 := m.nesting]);
      m := m.(r := m.r[0 := Sub32(m.r[0], 1)]);
      m := m.(nesting := m.r[0]);
    }

    /** CPSID i; FreeRTOS_EndOfInterrupt(r4); snapshot of CPSR, ICCIAR and sp. */
    method EndInterrupt(eoi: CReturn)
      requires m.cpsr.mode == SVC_MODE
      modifies this
      ensures calls == old(calls) + [CCall(EndOfInterrupt, [old(m).r[4]], sym.afterEoi)]
      ensures var masked := old(m).cpsr.(irqOff := true, nzcv := eoi.nzcv);
              m == old(m).(r := m.r, cpsr := masked.(nzcv := m.cpsr.nzcv), lrSvc := eoi.lr,
                           fp := ClobberedFp(old(m).fp, eoi), fpscr := eoi.fpscr,
                           mem := old(m).mem + eoi.writes,
                           epi := old(m).epi[5 := masked.Encode()][7 := old(m).r[4]][0 := old(m).spSvc])
      ensures m.r[5..12] == old(m).r[5..12]
    {
      // CPSID i
      m := m.(cpsr := m.cpsr.(irqOff := true));
      // MOV r0, r4; BLX FreeRTOS_EndOfInterrupt
      m := m.(r := m.r[0 := m.r[4]]);
      Blx(EndOfInterrupt, sym.afterEoi);
      Return(eoi);
      m := m.(r := m.r[3 := sym.epi]);
      m := m.(r := m.r[1 := m.cpsr.Encode()]);
      m := m.(epi := m.epi[5 := m.r[1]]);
      CountUnmasked();
      m := m.(epi := m.epi[7 := m.r[4]]);
      m := m.(epi := m.epi[0 := m.spSvc]);
    }

    /** POP {r2}; ADD sp, sp, r2, with both snapshots. */
    method RemovePadding()
      modifies `m
      ensures var padding := Rd(old(m).mem, old(m).spSvc);
              var sp := Add32(Add32(old(m).spSvc, 4), padding);
              m == old(m).(r := m.r, spSvc := sp, epi := old(m).epi[1 := padding][2 := sp])
      ensures m.r[5..12] == old(m).r[5..12]
    {
      m := m.(r := m.r[2 := Rd(m.mem, m.spSvc)], spSvc := Add32(m.spSvc, 4));
      m := m.(epi := m.epi[1 := m.r[2]]);
      m := m.(spSvc := Add32(m.spSvc, m.r[2]));
      m := m.(epi := m.epi[2 := m.spSvc]);
    }

    /** TST r1, #0x80: count an exit that runs with interrupts enabled in g_r8_epi[6]. */
    method CountUnmasked()
      requires m.r[1] == m.cpsr.Encode()
      modifies `m
      ensures m == old(m).(r := m.r, cpsr := old(m).cpsr.(nzcv := m.cpsr.nzcv), epi := m.epi)
      ensures m.r[4] == old(m).r[4] && m.r[5..12] == old(m).r[5..12]
      ensures m.epi == if m.cpsr.irqOff then old(m).epi else old(m).epi[6 := Add32(old(m).epi[6], 1)]
    {
      m.cpsr.LowFields();
      m := m.(cpsr := m.cpsr.(nzcv := if m.r[1] / 0x80 % 2 == 1 then 0 else 4));
      // LDREQ, ADDEQ, STREQ
      if !Ne(m.cpsr) {
        m := m.(r := m.r[1 := m.epi[6]]);
        m := m.(r := m.r[1 := Add32(m.r[1], 1)]);
        m := m.(epi := m.epi[6 := m.r[1]]);
      }
    }

    /** POP {r0-r4, r12, lr} or POP {r0-r4, r12}; CPS #IRQ_MODE; POP {lr}; MSR SPSR_cxsf, lr; POP {lr}. */
    method PopFrames()
      modifies `m
      ensures m == FramesPopped(frame, old(m))
    {
      if frame == WithLr {
        var w := Rds(m.mem, m.spSvc, 7);
        m := m.(r := w[..5] + m.r[5..12] + [w[5]], lrSvc := w[6], spSvc := Add32(m.spSvc, 28));
      } else {
        var w := Rds(m.mem, m.spSvc, 6);
        m := m.(r := w[..5] + m.r[5..12] + [w[5]], spSvc := Add32(m.spSvc, 24));
      }
      m := m.(cpsr := m.cpsr.(mode := IRQ_MODE));
      m := m.(lrIrq := Rd(m.mem, m.spIrq), spIrq := Add32(m.spIrq, 4));
      m := m.(spsrIrq := Psr.Decode(m.lrIrq));
      m := m.(lrIrq := Rd(m.mem, m.spIrq), spIrq := Add32(m.spIrq, 4));
    }

    /** g_r8_sw[i]++ and g_r8_sw[i + 1] = max of it and the nesting count. */
    method CountSwitch(i: nat)
      requires i == 0 || i == 2
      modifies `m
      ensures m == old(m).(r := m.r, cpsr := old(m).cpsr.(nzcv := m.cpsr.nzcv), sw := Counted(old(m), i))
      ensures m.r[5..12] == old(m).r[5..12]
    {
      m := m.(r := m.r[3 := sym.sw]);
      m := m.(r := m.r[2 := m.sw[i]]);
      m := m.(r := m.r[2 := Add32(m.r[2], 1)]);
      m := m.(sw := m.sw[i := m.r[2]]);
      m := m.(r := m.r[2 := m.nesting]);
      m := m.(r := m.r[4 := m.sw[i + 1]]);
      // CMP r2, r4; STRHI r2, [r3, #..]
      CompareDecides(m.cpsr, m.r[2], m.r[4]);
      m := m.(cpsr := m.cpsr.(nzcv := Compared(m.r[2], m.r[4])));
      if Hi(m.cpsr) {
        m := m.(sw := m.sw[i + 1 := m.r[2]]);
      }
    }

    /** portSAVE_CONTEXT, vTaskSwitchContext and portRESTORE_CONTEXT, from IRQ mode. */
    method SwitchTask(sched: CReturn, next: nat)
      requires m.cpsr.mode == IRQ_MODE && m.cur < |m.tops| && next < |m.tops|
      modifies this
      ensures calls == old(calls) + [CCall(SwitchContext, [], sym.afterSwitch)]
      ensures m == Switched(fpu, old(m), old(m).lrIrq, old(m).spsrIrq, sched, next)
    {
      SaveContext();
      SelectTask(sched, next);
      RestoreIgnores(fpu, Selected(Saved(fpu, old(m), old(m).lrIrq, old(m).spsrIrq), sched, next), m);
      RestoreContext();
    }

    /** LDR R0, =vTaskSwitchContext; BLX R0. */
    method SelectTask(sched: CReturn, next: nat)
      requires m.cpsr.mode == SYS_MODE
      modifies this
      ensures calls == old(calls) + [CCall(SwitchContext, [], sym.afterSwitch)]
      ensures m == Selected(old(m), sched, next).(r := m.r, lrSys := m.lrSys,
                                                  cpsr := old(m).cpsr.(nzcv := sched.nzcv))
    {
      m := m.(r := m.r[0 := sym.switchContext]);
      Blx(SwitchContext, sym.afterSwitch);
      Return(sched);
      m := m.(cur := next);
    }

    /** portSAVE_CONTEXT from IRQ or SVC mode: the return state is that mode's LR and SPSR. */
    method SaveContext()
      requires m.cur < |m.tops| && (m.cpsr.mode == IRQ_MODE || m.cpsr.mode == SVC_MODE)
      modifies `m
      ensures var ret := if old(m).cpsr.mode == IRQ_MODE then old(m).lrIrq else old(m).lrSvc;
              var psr := if old(m).cpsr.mode == IRQ_MODE then old(m).spsrIrq else old(m).spsrSvc;
              m == Saved(fpu, old(m), ret, psr).(r := m.r, cpsr := m.cpsr)
      ensures m.cpsr.mode == SYS_MODE
    {
      StoreReturnState();
      // PUSH {R0-R12, R14}
      m := m.(spSys := Sub32(m.spSys, 56));
      m := m.(mem := Wr(m.mem, m.spSys, m.r + [m.lrSys]));
      // push ulCriticalNesting
      m := m.(r := m.r[2 := sym.critical]);
      m := m.(r := m.r[1 := m.critical]);
      m := m.(spSys := Sub32(m.spSys, 4));
      m := m.(mem := m.mem[m.spSys := m.r[1]]);
      if fpu {
        SaveFp();
      }
      // STR SP, [pxCurrentTCB]
      m := m.(r := m.r[0 := sym.currentTcb]);
      m := m.(r := m.r[1 := m.spSys], tops := m.tops[m.cur := m.spSys]);
    }

    /** SRSDB sp!, #SYS_MODE; CPS #SYS_MODE. */
    method StoreReturnState()
      requires m.cpsr.mode == IRQ_MODE || m.cpsr.mode == SVC_MODE
      modifies `m
      ensures var ret := if old(m).cpsr.mode == IRQ_MODE then old(m).lrIrq else old(m).lrSvc;
              var psr := if old(m).cpsr.mode == IRQ_MODE then old(m).spsrIrq else old(m).spsrSvc;
              var sp := Sub32(old(m).spSys, 8);
              m == old(m).(spSys := sp, mem := Wr(old(m).mem, sp, [ret, psr.Encode()]),
                           cpsr := old(m).cpsr.(mode := SYS_MODE))
    {
      var ret := if m.cpsr.mode == IRQ_MODE then m.lrIrq else m.lrSvc;
      var psr := if m.cpsr.mode == IRQ_MODE then m.spsrIrq else m.spsrSvc;
      m := m.(spSys := Sub32(m.spSys, 8));
      m := m.(mem := Wr(m.mem, m.spSys, [ret, psr.Encode()]));
      m := m.(cpsr := m.cpsr.(mode := SYS_MODE));
    }

    method SaveFp()
      requires fpu
      modifies `m
      ensures m == SavedFp(old(m)).(r := m.r, cpsr := old(m).cpsr.(nzcv := m.cpsr.nzcv))
    {
      m := m.(r := m.r[2 := sym.hasFpu]);
      m := m.(r := m.r[3 := m.hasFpu]);
      CompareDecides(m.cpsr, m.r[3], 0);
      m := m.(cpsr := m.cpsr.(nzcv := Compared(m.r[3], 0)));
      if Ne(m.cpsr) {
        // FMRXNE R1, FPSCR; VPUSHNE {D0-D15}; PUSHNE {R1}
        m := m.(r := m.r[1 := m.fpscr]);
        m := m.(spSys := Sub32(m.spSys, 128));
        m := m.(mem := Wr(m.mem, m.spSys, m.fp));
        m := m.(spSys := Sub32(m.spSys, 4));
        m := m.(mem := m.mem[m.spSys := m.r[1]]);
      }
      m := m.(spSys := Sub32(m.spSys, 4));
      m := m.(mem := m.mem[m.spSys := m.r[3]]);
    }

    /** portRESTORE_CONTEXT. */
    method RestoreContext()
      requires m.cur < |m.tops|
      modifies `m
      ensures m == Restored(fpu, old(m))
    {
      m := m.(r := m.r[0 := sym.currentTcb]);
      m := m.(spSys := m.tops[m.cur]);
      if fpu {
        RestoreFp();
      }
      // pop ulCriticalNesting
      m := m.(r := m.r[0 := sym.critical]);
      m := m.(r := m.r[1 := Rd(m.mem, m.spSys)], spSys := Add32(m.spSys, 4));
      m := m.(critical := m.r[1]);
      // POP {R0-R12, R14}
      var w := Rds(m.mem, m.spSys, 14);
      m := m.(r := w[..13], lrSys := w[13], spSys := Add32(m.spSys, 56));
      // RFEIA sp!
      m := m.(pc := Rd(m.mem, m.spSys), cpsr := Psr.Decode(Rd(m.mem, Add32(m.spSys, 4))),
              spSys := Add32(m.spSys, 8));
    }

    method RestoreFp()
      requires fpu
      modifies `m
      ensures m == RestoredFp(old(m)).(r := m.r, cpsr := m.cpsr)
    {
      m := m.(r := m.r[0 := sym.hasFpu]);
      m := m.(r := m.r[1 := Rd(m.mem, m.spSys)], spSys := Add32(m.spSys, 4));
      m := m.(hasFpu := m.r[1]);
      CompareDecides(m.cpsr, m.r[1], 0);
      m := m.(cpsr := m.cpsr.(nzcv := Compared(m.r[1], 0)));
      if Ne(m.cpsr) {
        // POPNE {R0}; VPOPNE {D0-D15}; VMSRNE FPSCR, R0
        m := m.(r := m.r[0 := Rd(m.mem, m.spSys)], spSys := Add32(m.spSys, 4));
        m := m.(fp := Rds(m.mem, m.spSys, 32), spSys := Add32(m.spSys, 128));
        m := m.(fpscr := m.r[0]);
      }
    }

    /** The SVC exception and SVC_Handler; `ret` is the address after the SVC instruction. */
    method SvcHandler(ret: Word, sched: CReturn, next: nat)
      requires m.cur < |m.tops| && next < |m.tops|
      modifies this
      ensures m == Yielded(fpu, old(m), ret, sched, next)
      ensures calls == old(calls) + [CCall(SwitchContext, [], sym.afterSwitch)]
    {
      m := m.(lrSvc := ret, spsrSvc := m.cpsr, cpsr := m.cpsr.Taken(SVC_MODE));
      SaveContext();
      SelectTask(sched, next);
      CountSwitch(2);
      ghost var entry := old(m).(lrSvc := ret, spsrSvc := old(m).cpsr, sw := Counted(old(m), 2));
      RestoreIgnores(fpu, Selected(Saved(fpu, entry, ret, old(m).cpsr), sched, next), m);
      RestoreContext();
    }

    /** vPortRestoreTaskContext: start the first task. */
    method StartFirstTask()
      requires m.cur < |m.tops|
      modifies `m
      ensures m == Restored(fpu, old(m))
    {
      m := m.(cpsr := m.cpsr.(mode := SYS_MODE));
      RestoreIgnores(fpu, old(m), m);
      RestoreContext();
    }
  }
}
