/** Whole runs of the interrupt and task-switch machine: tasks work, interrupts arrive and nest,
    handlers work and return, tasks yield, and the scheduler picks whom it likes.  Ghost
    history (`lv`, `susp`) records the machine at every instant something was interrupted. */
module Runs {
  import opened Arm
  import opened PortAsm
  import opened BspIrq
  import opened TaskFrames

  // ---- memory layout -----------------------------------------------------------------

  ghost predicate Apart(a: int, b: int, c: int, d: int) {
    b <= c || d <= a
  }

  /** The SVC stack [svcLo, svcTop), the IRQ stack [irqLo, irqTop) and one stack per task. */
  datatype Layout = Layout(
    frame: Frame, fpu: bool, sym: Symbols, idBase: nat,
    svcLo: Word, svcTop: Word, irqLo: Word, irqTop: Word, lo: seq<Word>, hi: seq<Word>)
  {
    ghost predicate Valid() {
      && svcTop % 4 == 0 && svcLo <= svcTop && irqLo <= irqTop
      && |lo| == |hi|
      && Apart(svcLo, svcTop, irqLo, irqTop)
      && (forall t :: 0 <= t < |lo| ==>
            lo[t] <= hi[t] && Apart(lo[t], hi[t], svcLo, svcTop) && Apart(lo[t], hi[t], irqLo, irqTop))
      && (forall t, u :: 0 <= t < u < |lo| ==> Apart(lo[t], hi[t], lo[u], hi[u]))
    }
  }

  // ---- state -------------------------------------------------------------------------

  /** An interrupt being served: the machine when it was taken, what FreeRTOS_GetActiveIRQ read,
      what r4 held when vApplicationIRQHandler was called, the GIC priority, and whether
      bsp_common_interrupt_handler has already returned. */
  datatype Level = Level(at: Machine, icciar: Word, r4: Word, prio: int, tail: bool) {
    ghost function Base(f: Frame): Word {
      FrameBase(f, at.spSvc)
    }
  }

  /** `susp[t]` is the machine when task t was last suspended; `asked` says whether any handler
      has requested a switch since the outermost interrupt was taken. */
  datatype Sys = Sys(m: Machine, lv: seq<Level>, susp: map<nat, Machine>, asked: bool)

  /** Lowest live word of task t's stack. */
  ghost function LiveLo(m: Machine, t: nat): Word
    requires t < |m.tops|
  {
    if t == m.cur then m.spSys else m.tops[t]
  }

  /** C code running in SVC mode with sp_svc at most `base` leaves every live word alone. */
  ghost predicate Keeps(c: Layout, m: Machine, base: int, mem: Mem)
    requires |m.tops| == |c.hi|
  {
    && Agree(mem, m.mem, base, c.svcTop)
    && Agree(mem, m.mem, m.spIrq, c.irqTop)
    && forall t :: 0 <= t < |m.tops| ==> Agree(mem, m.mem, LiveLo(m, t), c.hi[t])
  }

  // ---- steps -------------------------------------------------------------------------

  /** The running task computes: any registers, any stack pointer inside its stack, any store
      that spares the live words of the other tasks. */
  ghost predicate TaskStep(c: Layout, s: Sys, s': Sys)
    requires |s.m.tops| == |c.hi| == |c.lo|
  {
    var m, n := s.m, s'.m;
    && s.lv == [] && s' == s.(m := n)
    && n == m.(r := n.r, pc := n.pc, cpsr := n.cpsr, spSys := n.spSys, lrSys := n.lrSys,
               fp := n.fp, fpscr := n.fpscr, critical := n.critical, mem := n.mem)
    && n.cpsr.mode == SYS_MODE
    && m.cur < |c.lo| && c.lo[m.cur] <= n.spSys <= c.hi[m.cur]
    && forall t :: 0 <= t < |m.tops| && t != m.cur ==> Agree(n.mem, m.mem, m.tops[t], c.hi[t])
  }

  /** An enabled interrupt is taken.  Unless the acknowledge was spurious, its priority is
      higher (numerically lower) than that of every interrupt still active. */
  ghost predicate IrqStep(c: Layout, s: Sys, s': Sys, ack: CReturn, prio: int)
    requires |s.m.tops| == |c.hi|
  {
    var m := s.m;
    var e := Entered(c.frame, m, ack, c.sym);
    && !m.cpsr.irqOff
    && m.spIrq - 8 >= c.irqLo && m.spSvc - 36 >= c.svcLo
    && Keeps(c, m.(mem := EntryMem(c.frame, m), spIrq := e.spIrq), e.spSvc, e.mem)
    && (!Spurious(ack.r0) ==> IsPriority(prio) && forall i :: 0 <= i < |s.lv| ==> prio < s.lv[i].prio)
    && s' == s.(m := if Spurious(ack.r0) then e else Opened(e, ack.r0, c.idBase),
                lv := s.lv + [Level(m, ack.r0, e.r[4], prio, Spurious(ack.r0))])
  }

  /** The innermost handler, or the code around it, computes. */
  ghost predicate IsrStep(c: Layout, s: Sys, s': Sys)
    requires |s.m.tops| == |c.hi|
  {
    var m, n := s.m, s'.m;
    && |s.lv| > 0 && s' == s.(m := n, asked := s.asked || n.yieldRequired != 0)
    && n == m.(r := n.r, pc := n.pc, cpsr := n.cpsr, spSvc := n.spSvc, lrSvc := n.lrSvc,
               fp := n.fp, fpscr := n.fpscr, mem := n.mem, yieldRequired := n.yieldRequired)
    && var top := s.lv[|s.lv| - 1];
    && n.cpsr.mode == SVC_MODE && (top.tail ==> n.cpsr.irqOff)
    && c.svcLo <= n.spSvc <= top.Base(c.frame) && n.spSvc % 4 == 0
    && Keeps(c, m, top.Base(c.frame), n.mem)
    && (m.yieldRequired != 0 ==> n.yieldRequired != 0)
  }

  /** The handler returns: __disable_irq(), g_current_interrupt_pointer--. */
  ghost predicate DoneStep(s: Sys, s': Sys) {
    var k := |s.lv| - 1;
    k >= 0 && !s.lv[k].tail && s.m.pointer > 0
    && s' == s.(m := Closed(s.m), lv := s.lv[k := s.lv[k].(tail := true)])
  }

  /** vApplicationIRQHandler has returned to the assembly: sp, r4-r11 and D8-D15 as at the call. */
  ghost function AtReturn(f: Frame, m: Machine, top: Level, ret: CReturn): Machine {
    m.(r := [ret.r0, ret.r1, ret.r2, ret.r3, top.r4] + top.at.r[5..12] + [ret.r12],
       spSvc := top.Base(f), lrSvc := ret.lr, cpsr := m.cpsr.(nzcv := ret.nzcv),
       fp := ClobberedFp(top.at.fp, ret), fpscr := ret.fpscr)
  }

  /** vTaskSwitchContext: free to pick any task and to store anything but live stack words. */
  ghost predicate Schedules(c: Layout, m: Machine, ret: Word, psr: Psr, sched: CReturn, next: nat)
    requires |m.tops| == |c.hi| == |c.lo| && m.cur < |m.tops|
  {
    var saved := Saved(c.fpu, m, ret, psr);
    && next < |m.tops|
    && m.spSys - FrameSize(c.fpu, m.hasFpu) >= c.lo[m.cur]
    && forall t :: 0 <= t < |m.tops| ==> Agree(saved.mem + sched.writes, saved.mem, saved.tops[t], c.hi[t])
  }

  ghost predicate ExitStep(c: Layout, s: Sys, s': Sys, ret: CReturn, eoi: CReturn, sched: CReturn, next: nat)
    requires |s.m.tops| == |c.hi| == |c.lo|
  {
    var k := |s.lv| - 1;
    k >= 0 && s.lv[k].tail && s.m.cur < |s.m.tops| && next < |s.m.tops|
    && var b := AtReturn(c.frame, s.m, s.lv[k], ret);
    && Keeps(c, b, b.spSvc, b.mem + eoi.writes)
    && (Switches(b) ==> var u := FramesPopped(c.frame, Finished(b, eoi));
          Schedules(c, u, u.lrIrq, u.spsrIrq, sched, next))
    && s' == Sys(Exited(c.frame, c.fpu, b, eoi, sched, next), s.lv[..k],
                 if Switches(b) then s.susp[s.m.cur := FpLeft(s.lv[k].at, eoi)] else s.susp,
                 if k == 0 then false else s.asked)
  }

  /** The running task executes SVC; it will resume at `ret`. */
  ghost predicate SvcStep(c: Layout, s: Sys, s': Sys, ret: Word, sched: CReturn, next: nat)
    requires |s.m.tops| == |c.hi| == |c.lo|
  {
    && s.lv == [] && s.m.cur < |s.m.tops| && next < |s.m.tops|
    && Schedules(c, s.m, ret, s.m.cpsr, sched, next)
    && s' == s.(m := Yielded(c.fpu, s.m, ret, sched, next), susp := s.susp[s.m.cur := s.m.(pc := ret)])
  }

  datatype Event =
    | Task
    | Irq(ack: CReturn, prio: int)
    | Isr
    | Done
    | Exit(ret: CReturn, eoi: CReturn, sched: CReturn, next: nat)
    | Svc(at: Word, sched: CReturn, next: nat)

  ghost predicate Next(c: Layout, s: Sys, s': Sys, e: Event) {
    |s.m.tops| == |c.hi| == |c.lo| &&
    match e
    case Task => TaskStep(c, s, s')
    case Irq(ack, prio) => IrqStep(c, s, s', ack, prio)
    case Isr => IsrStep(c, s, s')
    case Done => DoneStep(s, s')
    case Exit(ret, eoi, sched, next) => ExitStep(c, s, s', ret, eoi, sched, next)
    case Svc(at, sched, next) => SvcStep(c, s, s', at, sched, next)
  }

  // ---- invariant ---------------------------------------------------------------------

  /** What no handler and no nested interrupt touches. */
  ghost predicate Frozen(m: Machine, a: Machine) {
    && m.spSys == a.spSys && m.lrSys == a.lrSys && m.spsrSvc == a.spsrSvc
    && m.critical == a.critical && m.hasFpu == a.hasFpu
    && m.cur == a.cur && m.tops == a.tops && m.sw == a.sw
  }

  /** The words IRQ_Handler stored for this level are in place, and the live stack words of
      what it interrupted still have the values they had then. */
  ghost predicate LevelMem(c: Layout, mem: Mem, a: Machine)
  {
    && a.cur < |c.hi|
    && Rd(mem, a.spIrq - 4) == a.pc && Rd(mem, a.spIrq - 8) == a.cpsr.Encode()
    && Rds(mem, a.spSvc - c.frame.Bytes(), c.frame.Bytes() / 4) == IsrFrame(c.frame, a)
    && Rd(mem, FrameBase(c.frame, a.spSvc)) == Padding(Sub32(a.spSvc, c.frame.Bytes()))
    && Agree(mem, a.mem, a.spSvc, c.svcTop)
    && Agree(mem, a.mem, a.spSys, c.hi[a.cur])
  }

  ghost predicate LevelShape(c: Layout, lv: seq<Level>, i: nat)
    requires i < |lv|
  {
    var a := lv[i].at;
    && a.cpsr.mode == (if i == 0 then SYS_MODE else SVC_MODE) && !a.cpsr.irqOff
    && a.spIrq == c.irqTop - 8 * i && a.spIrq - 8 >= c.irqLo
    && a.spSvc % 4 == 0 && a.spSvc - 36 >= c.svcLo && a.spSvc <= c.svcTop
    && (if i == 0 then a.spSvc == c.svcTop else a.spSvc <= lv[i - 1].Base(c.frame))
    && a.nesting == i && a.pointer == i && lv[i].r4 == lv[i].icciar
    && (i < |lv| - 1 ==> !lv[i].tail)
    && (Spurious(lv[i].icciar) ==> lv[i].tail)
    && (!Spurious(lv[i].icciar) ==> IsPriority(lv[i].prio))
  }

  /** Task t's frame is intact and its live stack words have not changed since x. */
  ghost predicate Parked(c: Layout, m: Machine, t: nat, x: Machine)
    requires t < |m.tops| == |c.hi| == |c.lo|
  {
    && x.cpsr.mode == SYS_MODE
    && m.tops[t] == x.spSys - FrameSize(c.fpu, x.hasFpu)
    && c.lo[t] <= m.tops[t] && x.spSys <= c.hi[t]
    && Rds(m.mem, m.tops[t], FrameSize(c.fpu, x.hasFpu) / 4) == TaskFrame(c.fpu, x, x.pc, x.cpsr)
    && Agree(m.mem, x.mem, x.spSys, c.hi[t])
  }

  ghost predicate Tasks(c: Layout, m: Machine, susp: map<nat, Machine>)
    requires |m.tops| == |c.hi| == |c.lo|
  {
    forall t :: 0 <= t < |m.tops| && t != m.cur ==> t in susp && Parked(c, m, t, susp[t])
  }

  ghost predicate Levels(c: Layout, s: Sys) {
    && (forall i :: 0 <= i < |s.lv| ==> LevelShape(c, s.lv, i))
    && (forall i :: 0 <= i < |s.lv| ==> LevelMem(c, s.m.mem, s.lv[i].at))
    && (forall i :: 0 <= i < |s.lv| ==> Frozen(s.m, s.lv[i].at))
    && (forall i, j :: 0 <= i < j < |s.lv| && !Spurious(s.lv[j].icciar) ==> s.lv[j].prio < s.lv[i].prio)
    && (forall i :: 0 <= i < |s.lv| && !s.lv[i].tail ==>
          i < 32 && s.m.ids[i] == InterruptNumber(s.lv[i].icciar, c.idBase))
  }

  ghost predicate Core(c: Layout, s: Sys) {
    var m, d := s.m, |s.lv|;
    && m.nesting == d && m.pointer == (if d > 0 && s.lv[d - 1].tail then d - 1 else d)
    && m.spIrq == c.irqTop - 8 * d && m.spSvc % 4 == 0 && c.svcLo <= m.spSvc
    && (if d == 0 then m.cpsr.mode == SYS_MODE && m.spSvc == c.svcTop && m.yieldRequired == 0 && !s.asked
        else m.cpsr.mode == SVC_MODE && m.spSvc <= s.lv[d - 1].Base(c.frame)
             && (s.lv[d - 1].tail ==> m.cpsr.irqOff) && (s.asked <==> m.yieldRequired != 0))
    && m.cur < |c.lo| == |c.hi| && c.lo[m.cur] <= m.spSys <= c.hi[m.cur]
    && m.sw[1] == 0 && m.sw[3] == 0 && m.epi[6] == 0
  }

  ghost predicate Inv(c: Layout, s: Sys) {
    && c.Valid() && |s.m.tops| == |c.hi|
    && Core(c, s) && Levels(c, s) && Tasks(c, s.m, s.susp)
  }
}
