/** The padding-word guard running along with the machine: it never raises a false alarm, and
    it looks at exactly the word the exit of the interrupt is about to pop. */
module GuardRuns {
  import opened Arm
  import opened PortAsm
  import FaultRecord
  import opened Runs
  import opened RunTheorems
  import opened IrqGuard

  /** `frame` is how far r8_irq_guard's own sp lies below sp_svc at the call of
      vApplicationIRQHandler: the frames of those two C functions, the same on every call. */
  datatype Site = Site(frame: nat, svcBase: Word, svcLimit: Word, magic: Word)

  /** The stack pointer r8_irq_guard reads when the innermost handler has returned. */
  ghost function GuardSp(p: Site, s: Sys): int
    requires |s.lv| > 0
  {
    s.lv[|s.lv| - 1].Base(WithLr) - p.frame
  }

  /** A task may calibrate; the tail of vApplicationIRQHandler may call the guard. */
  ghost predicate GuardStep(p: Site, s: Sys, e: Event, g: Check, g': Check) {
    || g' == g
    || (e.Task? && g' == Calibrated(g, s.m.spSvc, p.svcBase, p.svcLimit))
    || (e.Isr? && Checks(p, s) && g' == Checked(g, p.magic, GuardSp(p, s), s.m.pointer, s.m.mem))
  }

  ghost predicate Checks(p: Site, s: Sys) {
    |s.lv| > 0 && s.lv[|s.lv| - 1].tail && 0 <= GuardSp(p, s) < WORDS
  }

  ghost predicate GuardRun(c: Layout, p: Site, ss: seq<Sys>, es: seq<Event>, gs: seq<Check>) {
    && Run(c, ss, es) && c.frame == WithLr && |gs| == |ss| && p.frame > 0
    && gs[0].addr == 0 && gs[0].off == 0
    && forall i :: 0 <= i < |es| ==> GuardAt(p, ss, es, gs, i)
  }

  ghost predicate GuardAt(p: Site, ss: seq<Sys>, es: seq<Event>, gs: seq<Check>, i: nat)
    requires |gs| == |ss| == |es| + 1 && i < |es|
  {
    GuardStep(p, ss[i], es[i], gs[i], gs[i + 1])
  }

  /** What calibration can have learned: the outermost frame's word and its distance. */
  ghost predicate Learned(c: Layout, p: Site, g: Check) {
    && (g.addr == 0 || g.addr == FrameBase(WithLr, c.svcTop))
    && (g.off == 0 || (g.off == p.frame && g.addr != 0))
  }

  lemma TailFacts(c: Layout, s: Sys)
    requires Inv(c, s) && c.frame == WithLr && |s.lv| > 0 && s.lv[|s.lv| - 1].tail
    ensures var top := s.lv[|s.lv| - 1];
            && s.m.pointer == |s.lv| - 1 && (|s.lv| == 1 ==> top.Base(WithLr) == FrameBase(WithLr, c.svcTop))
            && (Rd(s.m.mem, top.Base(WithLr)) == 0 || Rd(s.m.mem, top.Base(WithLr)) == 4)
  {
    assert LevelShape(c, s.lv, |s.lv| - 1) && LevelMem(c, s.m.mem, s.lv[|s.lv| - 1].at);
  }

  lemma TailFactsAt(c: Layout, ss: seq<Sys>, es: seq<Event>, i: nat)
    requires Run(c, ss, es) && c.frame == WithLr && i < |ss| && |ss[i].lv| > 0 && ss[i].lv[|ss[i].lv| - 1].tail
    ensures var s := ss[i];
            var top := s.lv[|s.lv| - 1];
            && s.m.pointer == |s.lv| - 1 && (|s.lv| == 1 ==> top.Base(WithLr) == FrameBase(WithLr, c.svcTop))
            && (Rd(s.m.mem, top.Base(WithLr)) == 0 || Rd(s.m.mem, top.Base(WithLr)) == 4)
  {
    RunKeepsInv(c, ss, es, i);
    TailFacts(c, ss[i]);
  }

  lemma TaskRests(c: Layout, ss: seq<Sys>, es: seq<Event>, i: nat)
    requires Run(c, ss, es) && i < |es| && es[i].Task?
    ensures ss[i].m.spSvc == c.svcTop
  {
    RunStep(c, ss, es, i);
    RunNesting(c, ss, es, i);
  }

  /** With learned values, a check reads the word of the innermost frame, whatever memory holds. */
  lemma CheckReadsFrameWord(c: Layout, p: Site, g: Check, sp: Word, base: Word, depth: nat, mem: Mem)
    requires Learned(c, p, g) && p.frame > 0 && sp + p.frame == base
    requires depth == 0 ==> base == FrameBase(WithLr, c.svcTop)
    ensures var n := Checked(g, p.magic, sp, depth, mem);
            && Learned(c, p, n) && (g.addr != 0 && (g.off != 0 || depth == 0) ==> n.off == p.frame)
            && (n.bad != g.bad <==>
                  g.addr != 0 && (g.off != 0 || depth == 0)
                  && p.magic == FaultRecord.MAGIC && Rd(mem, base) != 0 && Rd(mem, base) != 4)
            && (n.bad == g.bad || n.bad == Add32(g.bad, 1))
  {
  }

  lemma GuardStepKeeps(c: Layout, p: Site, ss: seq<Sys>, es: seq<Event>, gs: seq<Check>, i: nat)
    requires GuardRun(c, p, ss, es, gs) && i < |es| && Learned(c, p, gs[i])
    ensures Learned(c, p, gs[i + 1]) && gs[i + 1].bad == gs[i].bad
    ensures gs[i].off != 0 ==> gs[i + 1].off != 0
    ensures gs[i].addr != 0 ==> gs[i + 1].addr != 0
  {
    assert GuardAt(p, ss, es, gs, i);
    if es[i].Task? {
      TaskRests(c, ss, es, i);
    } else if es[i].Isr? && Checks(p, ss[i]) {
      TailFactsAt(c, ss, es, i);
      var top := ss[i].lv[|ss[i].lv| - 1];
      CheckReadsFrameWord(c, p, gs[i], GuardSp(p, ss[i]), top.Base(WithLr), ss[i].m.pointer, ss[i].m.mem);
    }
  }

  /** THE GUARD RAISES NO FALSE ALARM.  In every run in which only the machine itself writes the
      padding words, at every depth, irq_bad never moves; and what calibration learned stays. */
  lemma {:induction false} NoFalseAlarm(c: Layout, p: Site, ss: seq<Sys>, es: seq<Event>,
          gs: seq<Check>, i: nat, j: nat)
    requires GuardRun(c, p, ss, es, gs) && i <= j < |ss|
    ensures gs[j].bad == gs[0].bad && Learned(c, p, gs[j])
    ensures gs[i].off != 0 ==> gs[j].off == p.frame
    ensures gs[i].addr != 0 ==> gs[j].addr == FrameBase(WithLr, c.svcTop)
    decreases j
  {
    if i < j {
      NoFalseAlarm(c, p, ss, es, gs, i, j - 1);
      GuardStepKeeps(c, p, ss, es, gs, j - 1);
    } else if j > 0 {
      NoFalseAlarm(c, p, ss, es, gs, j - 1, j - 1);
      GuardStepKeeps(c, p, ss, es, gs, j - 1);
    }
  }

  /** THE GUARD MISSES NOTHING IT LOOKS FOR.  At the end of any handler of any run, at any depth,
      whatever something has written over memory: the check counts a corruption exactly when it
      is calibrated (or can calibrate here) and the word IRQ_Handler is about to pop is not 0 or 4. */
  lemma AlarmIff(c: Layout, p: Site, ss: seq<Sys>, es: seq<Event>, gs: seq<Check>, i: nat, mem: Mem)
    requires GuardRun(c, p, ss, es, gs) && i < |ss| && Checks(p, ss[i]) && p.magic == FaultRecord.MAGIC
    ensures var g := gs[i];
            var n := Checked(g, p.magic, GuardSp(p, ss[i]), ss[i].m.pointer, mem);
            var word := Rd(mem, ss[i].lv[|ss[i].lv| - 1].Base(WithLr));
            && (n.bad == Add32(g.bad, 1) <==>
                  g.addr != 0 && (g.off != 0 || ss[i].m.nesting == 1) && word != 0 && word != 4)
            && (n.bad != Add32(g.bad, 1) ==> n.bad == g.bad)
  {
    NoFalseAlarm(c, p, ss, es, gs, i, i);
    TailFactsAt(c, ss, es, i);
    RunNesting(c, ss, es, i);
    CheckReadsFrameWord(c, p, gs[i], GuardSp(p, ss[i]), ss[i].lv[|ss[i].lv| - 1].Base(WithLr), ss[i].m.pointer, mem);
  }

  /** The first outermost check after calibration measures the offset, for good. */
  lemma OffsetLearnedOnce(c: Layout, p: Site, ss: seq<Sys>, es: seq<Event>, gs: seq<Check>, i: nat, j: nat)
    requires GuardRun(c, p, ss, es, gs) && i < j < |ss| && es[i].Isr? && Checks(p, ss[i])
    requires gs[i + 1] == Checked(gs[i], p.magic, GuardSp(p, ss[i]), ss[i].m.pointer, ss[i].m.mem)
    requires gs[i].addr != 0 && ss[i].m.nesting == 1
    ensures gs[j].off == p.frame
  {
    NoFalseAlarm(c, p, ss, es, gs, i, i);
    TailFactsAt(c, ss, es, i);
    RunNesting(c, ss, es, i);
    CheckReadsFrameWord(c, p, gs[i], GuardSp(p, ss[i]), ss[i].lv[|ss[i].lv| - 1].Base(WithLr),
                        ss[i].m.pointer, ss[i].m.mem);
    NoFalseAlarm(c, p, ss, es, gs, i + 1, j);
  }
}
