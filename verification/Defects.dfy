/** The two defects this port was repaired for, as variants of the same routines: a frame
    without lr_svc, and an exit that switches tasks without looking at the nesting count. */
module Defects {
  import opened Arm
  import opened PortAsm
  import opened BspIrq
  import opened TaskFrames
  import opened PortC
  import opened Runs
  import opened Invariant
  import opened ExitProofs
  import opened RunTheorems
  import opened RunBuilding

  // ---- the frame without lr ----------------------------------------------------------

  /** In every run with the old frame, at every depth: an interrupt that returns without a switch
      gives back what it does with the new one but for lr_svc, which holds what
      FreeRTOS_EndOfInterrupt left; so lr_svc is back exactly when that happens to be its old
      value.  Interrupted tasks run in system mode, interrupted handlers in supervisor mode,
      where lr is lr_svc. */
  lemma OldFrameTransparentIff(c: Layout, ss: seq<Sys>, es: seq<Event>, i: nat, j: nat)
    requires c.frame == WithoutLr && Run(c, ss, es) && Returns(ss, i, j) && es[i].Irq?
    requires ss[i].m.nesting > 0 || ss[j - 1].m.yieldRequired == 0
    ensures es[j - 1].Exit? && Back(c, ss[j].m, FpLeft(ss[i].m, es[j - 1].eoi), es[j - 1].eoi.lr)
    ensures Resumes(c, ss[j].m, FpLeft(ss[i].m, es[j - 1].eoi)) <==> es[j - 1].eoi.lr == ss[i].m.lrSvc
    ensures ss[j].m.cpsr.mode == (if ss[i].m.nesting == 0 then SYS_MODE else SVC_MODE)
  {
    InterruptsAreTransparent(c, ss, es, i, j);
    ModeAt(c, ss, es, j);
  }

  lemma ModeAt(c: Layout, ss: seq<Sys>, es: seq<Event>, i: nat)
    requires Run(c, ss, es) && i < |ss|
    ensures ss[i].m.cpsr.mode == if ss[i].m.nesting == 0 then SYS_MODE else SVC_MODE
  {
    RunKeepsInv(c, ss, es, i);
  }

  /** Why nobody notices below the first level of nesting: in system mode lr_svc is dead.  What a
      task can do next, be interrupted or yield, gives the same machine whatever it holds. */
  lemma LrSvcIsDeadInTasks(m: Machine, lr: Word, ack: CReturn, sym: Symbols, fpu: bool,
          at: Word, sched: CReturn, next: nat)
    requires m.cpsr.mode == SYS_MODE && m.cur < |m.tops| && next < |m.tops|
    ensures var n := m.(lrSvc := lr);
            && Entered(WithoutLr, n, ack, sym) == Entered(WithoutLr, m, ack, sym)
            && Yielded(fpu, n, at, sched, next) == Yielded(fpu, m, at, sched, next)
  {
  }

  /** The outer handler, its return address still in lr, executes BX lr. */
  ghost function BxLr(s: Sys): Sys {
    s.(m := s.m.(pc := s.m.lrSvc), asked := s.asked || s.m.yieldRequired != 0)
  }

  lemma HandlerReturns(c: Layout, ss: seq<Sys>, es: seq<Event>) returns (tt: seq<Sys>, fs: seq<Event>)
    requires Run(c, ss, es) && |ss[|es|].lv| > 0
    ensures Run(c, tt, fs) && Extends(tt, fs, ss, es) && fs[|es|].Isr? && tt[|fs|] == BxLr(ss[|es|])
  {
    var s := ss[|es|];
    RunSizes(c, ss, es);
    ReturnsStep(c, s);
    RunExtends(c, ss, es, BxLr(s), Isr);
    tt, fs := ss + [BxLr(s)], es + [Isr];
  }

  lemma ReturnsStep(c: Layout, s: Sys)
    requires Core(c, s) && |s.m.tops| == |c.hi| == |c.lo| && |s.lv| > 0
    ensures Next(c, s, BxLr(s), Isr)
  {
  }

  /** A RUN THE OLD FRAME BREAKS, in every system: boot, an interrupt whose handler has just been
      called, a nested interrupt that comes and goes, and the outer handler's return.  With lr
      in the frame it returns to where it was called from; without, the interrupted handler
      is not given back and its return lands behind the call of FreeRTOS_EndOfInterrupt, in
      the exit code. */
  lemma OldFrameLosesLr(c: Layout, m: Machine, starts: seq<Start>, s: Sys)
    requires Boots(c, m, starts, s) && c.irqTop - 16 >= c.irqLo && c.svcTop - 72 >= c.svcLo
    requires c.sym.afterEoi != c.sym.afterAppHandler
    ensures exists ss, es :: BrokenReturn(c, ss, es) && ss[0] == s
  {
    BootedRun(c, m, starts, s);
    NestedRun(c, [s], []);
  }

  lemma NestedRun(c: Layout, ss: seq<Sys>, es: seq<Event>)
    requires Run(c, ss, es) && |es| == 0
    requires ss[0].lv == [] && !ss[0].m.cpsr.irqOff && ss[0].m.spIrq == c.irqTop && ss[0].m.spSvc == c.svcTop
    requires c.irqTop - 16 >= c.irqLo && c.svcTop - 72 >= c.svcLo && c.sym.afterEoi != c.sym.afterAppHandler
    ensures exists tt, fs :: BrokenReturn(c, tt, fs) && tt[0] == ss[0]
  {
    var s1, e1 := TakesInterrupt(c, ss, es, 16);
    NestedEntry(c, s1, e1);
  }

  lemma NestedEntry(c: Layout, s1: seq<Sys>, e1: seq<Event>)
    requires Run(c, s1, e1) && |e1| == 1 && c.sym.afterEoi != c.sym.afterAppHandler
    requires |s1[1].lv| == 1 && s1[1].lv[0].prio == 16 && !s1[1].m.cpsr.irqOff && s1[1].m.lrSvc == c.sym.afterAppHandler
    requires s1[1].m.spIrq - 8 >= c.irqLo && s1[1].m.spSvc - 36 >= c.svcLo
    ensures exists ss, es :: BrokenReturn(c, ss, es) && ss[0] == s1[0]
  {
    var s2, e2 := TakesInterrupt(c, s1, e1, 0);
    assert s2[0] == s1[0] && s2[1] == s1[1];
    NestedComesAndGoes(c, s2, e2);
  }

  lemma NestedComesAndGoes(c: Layout, s2: seq<Sys>, e2: seq<Event>)
    requires Run(c, s2, e2) && |e2| == 2 && e2[1].Irq? && c.sym.afterEoi != c.sym.afterAppHandler
    requires |s2[1].lv| == 1 && |s2[2].lv| == 2 && !s2[2].lv[1].tail && s2[1].m.lrSvc == c.sym.afterAppHandler
    requires s2[2].m.fp == s2[1].m.fp && s2[2].m.fpscr == s2[1].m.fpscr
    ensures exists ss, es :: BrokenReturn(c, ss, es) && ss[0] == s2[0]
  {
    var s3, e3 := HandlerDone(c, s2, e2);
    var s4, e4 := Leaves(c, s3, e3);
    var s5, e5 := HandlerReturns(c, s4, e4);
    assert forall k :: 0 <= k < 3 ==> s5[k] == s4[k] == s3[k] == s2[k];
    assert e5[1] == e2[1] && e5[3] == e4[3];
    NestedReturn(c, s5, e5);
  }

  /** From state 1 to state 4 a nested interrupt comes and goes; at 5 the outer handler has
      returned. */
  ghost predicate BrokenReturn(c: Layout, ss: seq<Sys>, es: seq<Event>) {
    && Run(c, ss, es) && |es| == 5
    && es[1].Irq? && ss[1].m.nesting == 1 && Returns(ss, 1, 4) && ss[1].m.lrSvc == c.sym.afterAppHandler
    && (Resumes(c, ss[4].m, ss[1].m) <==> c.frame == WithLr)
    && es[4].Isr? && ss[5] == BxLr(ss[4])
    && ss[5].m.pc == (if c.frame == WithLr then c.sym.afterAppHandler else c.sym.afterEoi)
  }

  lemma NestedReturn(c: Layout, ss: seq<Sys>, es: seq<Event>)
    requires Run(c, ss, es) && |es| == 5 && c.sym.afterEoi != c.sym.afterAppHandler
    requires es[1].Irq? && es[3] == LeaveEvent(c, ss[3]) && es[4].Isr? && ss[5] == BxLr(ss[4])
    requires |ss[1].lv| == 1 && |ss[2].lv| == 2 && |ss[3].lv| == 2 && |ss[4].lv| == 1
    requires ss[1].m.lrSvc == c.sym.afterAppHandler && ss[3].m.fp == ss[1].m.fp && ss[3].m.fpscr == ss[1].m.fpscr
    ensures BrokenReturn(c, ss, es)
  {
    RunNesting(c, ss, es, 1);
    RunNesting(c, ss, es, 2);
    RunNesting(c, ss, es, 3);
    RunNesting(c, ss, es, 4);
    InterruptsAreTransparent(c, ss, es, 1, 4);
  }

  const FIRST: Start := Start(0x6000, 0x100, 7, 0x200)

  /** One task whose stack has just been built, with nothing else in memory. */
  ghost function OneTask(fpu: bool): Machine {
    var psr := Psr(0, 0, true, false, false, SVC_MODE);
    var top := FIRST.top - 8 - FrameSize(fpu, 1);
    Machine(seq(13, _ => 0), 0, psr, 0, 0, 0x2000, 0, psr, 0x4000, 0, psr, seq(32, _ => 0), 0,
            Wr(map[], top, NewFrame(fpu, FIRST.code, FIRST.param, FIRST.exit)), 0, 0, 0, 0, 0, [top],
            seq(32, _ => 0), 0, seq(8, _ => 0), [0, 0, 0, 0])
  }

  ghost function OneTaskLayout(f: Frame, fpu: bool): Layout {
    var sym := Symbols(1, 2, 3, 4, 5, 6, 7, 8, 9, 10, 11, 12, 13);
    Layout(f, fpu, sym, 0, 0x1000, 0x2000, 0x3000, 0x4000, [0x5000], [0x6000])
  }

  lemma OneTaskIsBuilt(f: Frame, fpu: bool)
    ensures var m := OneTask(fpu); |m.tops| == 1 && Built(OneTaskLayout(f, fpu), m, 0, FIRST)
  {
    var top := FIRST.top - 8 - FrameSize(fpu, 1);
    ReadBack(map[], top, NewFrame(fpu, FIRST.code, FIRST.param, FIRST.exit));
  }

  /** Such systems exist, with either frame, with and without floating point: one task, room for
      a few interrupts. */
  lemma SomeSystemBoots(f: Frame, fpu: bool) returns (c: Layout, m: Machine, starts: seq<Start>, s: Sys)
    ensures Boots(c, m, starts, s) && c.frame == f && c.fpu == fpu
    ensures c.irqTop - 16 >= c.irqLo && c.svcTop - 72 >= c.svcLo && c.sym.afterEoi != c.sym.afterAppHandler
  {
    c, m, starts := OneTaskLayout(f, fpu), OneTask(fpu), [FIRST];
    OneTaskIsBuilt(f, fpu);
    s := Sys(Restored(c.fpu, m), [],
             map t | 0 <= t < |starts| ::
               NewTask(c.fpu, starts[t].top, starts[t].code, starts[t].param, starts[t].exit, m),
             false);
  }

  // ---- the exit without a nesting check ----------------------------------------------

  /** switch_before_exit whenever a switch is requested, at any depth, up to the saved context. */
  function UncheckedSave(c: Layout, b: Machine, eoi: CReturn): Machine
    requires b.cur < |b.tops|
  {
    var u := FramesPopped(c.frame, Finished(b, eoi));
    Saved(c.fpu, u, u.lrIrq, u.spsrIrq)
  }

  /** Taken while nested, that exit stores the outer handler as if it were the task: the saved
      status word says SVC mode, so no task context matches the frame, now or ever. */
  lemma UncheckedExitParksHandler(c: Layout, s: Sys, ret: CReturn, eoi: CReturn)
    requires Inv(c, s) && |s.lv| > 1 && s.lv[|s.lv| - 1].tail
    requires var b := AtReturn(c.frame, s.m, s.lv[|s.lv| - 1], ret); Keeps(c, b, b.spSvc, b.mem + eoi.writes)
    requires s.m.spSys >= FrameSize(c.fpu, s.m.hasFpu)
    ensures var n := UncheckedSave(c, AtReturn(c.frame, s.m, s.lv[|s.lv| - 1], ret), eoi);
            && Rd(n.mem, s.m.spSys - 8) == s.lv[|s.lv| - 1].at.pc
            && Psr.Decode(Rd(n.mem, s.m.spSys - 4)).mode == SVC_MODE
            && |n.tops| == |c.hi| && forall x :: !Parked(c, n, s.m.cur, x)
  {
    var top := s.lv[|s.lv| - 1];
    var b := AtReturn(c.frame, s.m, top, ret);
    TopLevel(c, s);
    ExitMem(c, s, b, b.mem + eoi.writes);
    assert LevelMem(c, b.mem + eoi.writes, top.at);
    Recovers(c, s.m, top, ret, eoi);
    HandlerSaved(c.fpu, FramesPopped(c.frame, Finished(b, eoi)), top.at);
    NoTaskMatches(c, FramesPopped(c.frame, Finished(b, eoi)), top.at);
  }

  /** A frame saved with a status word of another mode is no suspended task's frame. */
  lemma NoTaskMatches(c: Layout, u: Machine, a: Machine)
    requires u.cur < |u.tops| == |c.hi| == |c.lo| && u.spSys >= FrameSize(c.fpu, u.hasFpu)
    requires u.lrIrq == a.pc && u.spsrIrq == a.cpsr && a.cpsr.mode != SYS_MODE
    ensures var n := Saved(c.fpu, u, u.lrIrq, u.spsrIrq);
            |n.tops| == |u.tops| && forall x :: !Parked(c, n, u.cur, x)
  {
    var n := Saved(c.fpu, u, a.pc, a.cpsr);
    SaveBuildsFrame(c.fpu, u, a.pc, a.cpsr);
    forall x ensures !Parked(c, n, u.cur, x) {
      if Parked(c, n, u.cur, x) {
        SameFrameSameStatus(c.fpu, n.mem, n.tops[u.cur], u, a.pc, a.cpsr, x);
      }
    }
  }

  lemma SameFrameSameStatus(fpu: bool, mem: Mem, at: int, u: Machine, ret: Word, psr: Psr, x: Machine)
    requires Rds(mem, at, FrameSize(fpu, u.hasFpu) / 4) == TaskFrame(fpu, u, ret, psr)
    requires Rds(mem, at, FrameSize(fpu, x.hasFpu) / 4) == TaskFrame(fpu, x, x.pc, x.cpsr)
    ensures x.cpsr == psr
  {
    var f, g := TaskFrame(fpu, u, ret, psr), TaskFrame(fpu, x, x.pc, x.cpsr);
    assert f[0] == Rd(mem, at) == g[0];
    assert fpu ==> f[0] == u.hasFpu && g[0] == x.hasFpu;
    assert f[|f| - 1] == psr.Encode() && g[|g| - 1] == x.cpsr.Encode();
    psr.StatusRoundTrip();
    x.cpsr.StatusRoundTrip();
  }

  lemma HandlerSaved(fpu: bool, u: Machine, a: Machine)
    requires u.cur < |u.tops| && u.lrIrq == a.pc && u.spsrIrq == a.cpsr && u.spSys >= FrameSize(fpu, u.hasFpu)
    ensures var n := Saved(fpu, u, u.lrIrq, u.spsrIrq);
            && Rd(n.mem, u.spSys - 8) == a.pc && Psr.Decode(Rd(n.mem, u.spSys - 4)) == a.cpsr
  {
    SaveBuildsFrame(fpu, u, a.pc, a.cpsr);
    FrameEndsWithStatus(fpu, Saved(fpu, u, a.pc, a.cpsr).mem, u, a.pc, a.cpsr);
    a.cpsr.StatusRoundTrip();
  }

  lemma FrameEndsWithStatus(fpu: bool, mem: Mem, u: Machine, ret: Word, psr: Psr)
    requires u.spSys >= FrameSize(fpu, u.hasFpu)
    requires Rds(mem, u.spSys - FrameSize(fpu, u.hasFpu), FrameSize(fpu, u.hasFpu) / 4) == TaskFrame(fpu, u, ret, psr)
    ensures Rd(mem, u.spSys - 8) == ret && Rd(mem, u.spSys - 4) == psr.Encode()
  {
    var f := TaskFrame(fpu, u, ret, psr);
    var k := |f|;
    assert f[k - 2] == ret && f[k - 1] == psr.Encode();
    var r := Rds(mem, u.spSys - 4 * k, k);
    assert r[k - 2] == Rd(mem, u.spSys - 8) && r[k - 1] == Rd(mem, u.spSys - 4);
  }
}
