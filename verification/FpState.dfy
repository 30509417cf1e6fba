/** D0-D15 and FPSCR, of which IRQ_Handler saves nothing: when an interrupt gives them back, and
    what a task sees when it does not. */
module FpState {
  import opened Arm
  import opened PortAsm
  import opened BspIrq
  import opened Runs
  import opened ExitProofs
  import opened RunTheorems
  import opened RunBuilding

  // ---- integer code ------------------------------------------------------------------

  /** The C code that runs in this step leaves the floating-point registers as it found them. */
  ghost predicate IntegerStep(s: Sys, s': Sys, e: Event) {
    match e
    case Irq(ack, _) => KeepsFp(s.m, ack)
    case Isr => s'.m.fp == s.m.fp && s'.m.fpscr == s.m.fpscr
    case Exit(ret, eoi, _, _) => KeepsFp(s.m, ret) && KeepsFp(s.m, eoi)
    case _ => true
  }

  /** So does every handler, hook and inner interrupt between i and j. */
  ghost predicate IntegerCode(ss: seq<Sys>, es: seq<Event>, i: nat, j: nat)
    requires |ss| == |es| + 1 && j <= |es|
  {
    forall k :: i <= k < j ==> IntegerStep(ss[k], ss[k + 1], es[k])
  }

  /** s holds a's floating-point registers, and so does everything interrupted at depth d or
      deeper. */
  ghost predicate Holds(s: Sys, d: nat, a: Machine) {
    && s.m.fp == a.fp && s.m.fpscr == a.fpscr
    && forall l :: d <= l < |s.lv| ==> s.lv[l].at.fp == a.fp
  }

  lemma {:induction false} FpHeld(c: Layout, ss: seq<Sys>, es: seq<Event>, i: nat, k: nat)
    requires Run(c, ss, es) && i < k < |ss| && es[i].Irq? && Deeper(ss, i, k + 1) && IntegerCode(ss, es, i, k)
    ensures Holds(ss[k], ss[i].m.nesting, ss[i].m)
    decreases k
  {
    if k == i + 1 {
      RunNesting(c, ss, es, i);
      EntryHolds(c, ss, es, i, ss[i].m.nesting, ss[i].m);
    } else {
      FpHeld(c, ss, es, i, k - 1);
      DeeperStepHolds(c, ss, es, k - 1, ss[i].m.nesting, ss[i].m);
    }
  }

  lemma DeeperStepHolds(c: Layout, ss: seq<Sys>, es: seq<Event>, i: nat, d: nat, a: Machine)
    requires Run(c, ss, es) && i < |es| && Holds(ss[i], d, a) && IntegerStep(ss[i], ss[i + 1], es[i])
    requires ss[i].m.nesting > d && ss[i + 1].m.nesting > d
    ensures Holds(ss[i + 1], d, a)
  {
    RunNesting(c, ss, es, i);
    RunNesting(c, ss, es, i + 1);
    StepHolds(c, ss, es, i, d, a);
  }

  lemma StepHolds(c: Layout, ss: seq<Sys>, es: seq<Event>, i: nat, d: nat, a: Machine)
    requires Run(c, ss, es) && i < |es| && Holds(ss[i], d, a) && IntegerStep(ss[i], ss[i + 1], es[i])
    requires |ss[i].lv| > d && |ss[i + 1].lv| > d
    ensures Holds(ss[i + 1], d, a)
  {
    match es[i]
    case Irq(_, _) => EntryHolds(c, ss, es, i, d, a);
    case Exit(_, _, _, _) => ExitHolds(c, ss, es, i, d, a);
    case _ => OtherHolds(c, ss, es, i, d, a);
  }

  lemma EntryHolds(c: Layout, ss: seq<Sys>, es: seq<Event>, i: nat, d: nat, a: Machine)
    requires Run(c, ss, es) && i < |es| && es[i].Irq? && KeepsFp(ss[i].m, es[i].ack) && d <= |ss[i].lv|
    requires ss[i].m.fp == a.fp && ss[i].m.fpscr == a.fpscr
    requires forall l :: d <= l < |ss[i].lv| ==> ss[i].lv[l].at.fp == a.fp
    ensures Holds(ss[i + 1], d, a)
  {
    LevelsMoveAt(c, ss, es, i);
    RunStep(c, ss, es, i);
    EntryFp(c, ss[i], ss[i + 1], es[i]);
    KeptFp(ss[i].m, es[i].ack);
  }

  lemma EntryFp(c: Layout, s: Sys, s': Sys, e: Event)
    requires Next(c, s, s', e) && e.Irq?
    ensures s'.m.fp == ClobberedFp(s.m.fp, e.ack) && s'.m.fpscr == e.ack.fpscr
  {
  }

  lemma ExitHolds(c: Layout, ss: seq<Sys>, es: seq<Event>, i: nat, d: nat, a: Machine)
    requires Run(c, ss, es) && i < |es| && es[i].Exit? && KeepsFp(ss[i].m, es[i].eoi) && Holds(ss[i], d, a)
    requires |ss[i + 1].lv| > d
    ensures Holds(ss[i + 1], d, a)
  {
    ExitPops(c, ss, es, i);
    PlainExit(c, ss, es, i);
    KeptFp(a, es[i].eoi);
  }

  lemma OtherHolds(c: Layout, ss: seq<Sys>, es: seq<Event>, i: nat, d: nat, a: Machine)
    requires Run(c, ss, es) && i < |es| && !es[i].Irq? && !es[i].Exit? && Holds(ss[i], d, a)
    requires |ss[i].lv| > d && IntegerStep(ss[i], ss[i + 1], es[i])
    ensures Holds(ss[i + 1], d, a)
  {
    LevelsMoveAt(c, ss, es, i);
    RunStep(c, ss, es, i);
  }

  /** When all of it is integer code, FreeRTOS_EndOfInterrupt leaves the interrupted machine's
      floating-point registers, though nothing saved them. */
  lemma IntegerCodeKeepsFp(c: Layout, ss: seq<Sys>, es: seq<Event>, i: nat, j: nat)
    requires Run(c, ss, es) && Returns(ss, i, j) && es[i].Irq? && IntegerCode(ss, es, i, j)
    ensures es[j - 1].Exit? && KeepsFp(ss[i].m, es[j - 1].eoi)
  {
    ReturnIsExit(c, ss, es, i, j);
    FpHeld(c, ss, es, i, j - 1);
    assert IntegerStep(ss[j - 1], ss[j], es[j - 1]);
  }

  /** INTEGER HANDLERS ARE FULLY TRANSPARENT, floating-point registers included, at any depth. */
  lemma IntegerHandlersAreTransparent(c: Layout, ss: seq<Sys>, es: seq<Event>, i: nat, j: nat)
    requires Run(c, ss, es) && Returns(ss, i, j) && es[i].Irq? && IntegerCode(ss, es, i, j) && c.frame == WithLr
    requires ss[i].m.nesting > 0 || ss[j - 1].m.yieldRequired == 0
    ensures Resumes(c, ss[j].m, ss[i].m)
  {
    IntegerCodeKeepsFp(c, ss, es, i, j);
    InterruptsAreTransparent(c, ss, es, i, j);
  }

  /** And a task they switch out is resumed with them, whatever the tasks and handlers that ran
      in the meantime did with theirs. */
  lemma IntegerHandlersIsolate(c: Layout, ss: seq<Sys>, es: seq<Event>, p: nat, i: nat, j: nat)
    requires Run(c, ss, es) && Returns(ss, p, i) && es[p].Irq? && ss[p].m.nesting == 0 && IntegerCode(ss, es, p, i)
    requires ss[i - 1].m.yieldRequired != 0 && i <= j < |ss|
    requires ss[j].m.cur == ss[p].m.cur && forall k :: i <= k < j ==> ss[k].m.cur != ss[p].m.cur
    ensures ss[j].m.cur < |c.hi| && Continues(c, ss[j].m, ss[p].m)
  {
    IntegerCodeKeepsFp(c, ss, es, p, i);
    IsolatedFromInterruptToResume(c, ss, es, p, i, j);
  }

  // ---- a handler that uses them ------------------------------------------------------

  /** A handler writes v to the lower half of D0, all other C code leaves the registers alone, and
      the interrupted task goes on with v in it. */
  ghost predicate Spilled(c: Layout, ss: seq<Sys>, es: seq<Event>, v: Word) {
    && Run(c, ss, es) && |es| == 4 && es[0].Irq? && es[1].Isr? && Returns(ss, 0, 4) && ss[0].m.nesting == 0
    && IntegerStep(ss[0], ss[1], es[0]) && IntegerCode(ss, es, 2, 4)
    && ss[4].m.fp == ss[0].m.fp[0 := v] && ss[4].m.fpscr == ss[0].m.fpscr
    && (c.frame == WithLr ==> (Resumes(c, ss[4].m, ss[0].m) <==> ss[0].m.fp[0] == v))
  }

  /** ONE FLOATING-POINT INSTRUCTION IN A HANDLER REACHES THE TASK: in every system that boots, for
      every word. */
  lemma HandlerFpReachesTask(c: Layout, m: Machine, starts: seq<Start>, s: Sys, v: Word)
    requires Boots(c, m, starts, s) && c.irqTop - 8 >= c.irqLo && c.svcTop - 36 >= c.svcLo
    ensures exists ss, es :: Spilled(c, ss, es, v) && ss[0] == s
  {
    BootedRun(c, m, starts, s);
    RunNesting(c, [s], [], 0);
    var s1, e1 := TakesInterrupt(c, [s], [], 16);
    SpillRun(c, s1, e1, v);
  }

  ghost function Loaded(s: Sys, v: Word): Sys {
    s.(m := s.m.(fp := s.m.fp[0 := v]), asked := s.asked || s.m.yieldRequired != 0)
  }

  lemma LoadsStep(c: Layout, s: Sys, v: Word)
    requires Core(c, s) && |s.m.tops| == |c.hi| == |c.lo| && |s.lv| > 0
    ensures Next(c, s, Loaded(s, v), Isr)
  {
  }

  lemma HandlerLoads(c: Layout, ss: seq<Sys>, es: seq<Event>, v: Word) returns (tt: seq<Sys>, fs: seq<Event>)
    requires Run(c, ss, es) && |ss[|es|].lv| > 0
    ensures Run(c, tt, fs) && Extends(tt, fs, ss, es) && fs[|es|].Isr? && tt[|fs|] == Loaded(ss[|es|], v)
  {
    var s := ss[|es|];
    RunSizes(c, ss, es);
    LoadsStep(c, s, v);
    RunExtends(c, ss, es, Loaded(s, v), Isr);
    tt, fs := ss + [Loaded(s, v)], es + [Isr];
  }

  lemma SpillRun(c: Layout, s1: seq<Sys>, e1: seq<Event>, v: Word)
    requires Run(c, s1, e1) && |e1| == 1 && e1[0].Irq? && IntegerStep(s1[0], s1[1], e1[0])
    requires s1[0].lv == [] && |s1[1].lv| == 1 && !s1[1].lv[0].tail && s1[1].m.yieldRequired == 0
    requires s1[1].m.fp == s1[0].m.fp && s1[1].m.fpscr == s1[0].m.fpscr
    ensures exists ss, es :: Spilled(c, ss, es, v) && ss[0] == s1[0]
  {
    var s2, e2 := HandlerLoads(c, s1, e1, v);
    var s3, e3 := HandlerDone(c, s2, e2);
    var s4, e4 := Leaves(c, s3, e3);
    assert forall k :: 0 <= k < 2 ==> s4[k] == s3[k] == s2[k] == s1[k];
    assert s4[2] == s3[2] == s2[2] && s4[3] == s3[3];
    assert e4[0] == e3[0] == e2[0] == e1[0] && e4[1] == e3[1] == e2[1] && e4[2] == e3[2];
    SpillReturns(c, s4, e4, v);
  }

  lemma SpillReturns(c: Layout, ss: seq<Sys>, es: seq<Event>, v: Word)
    requires Run(c, ss, es) && |es| == 4 && es[0].Irq? && es[1].Isr? && es[2].Done? && es[3] == LeaveEvent(c, ss[3])
    requires IntegerStep(ss[0], ss[1], es[0])
    requires |ss[0].lv| == 0 && |ss[1].lv| == |ss[2].lv| == |ss[3].lv| == 1 && |ss[4].lv| == 0
    requires ss[3].m.yieldRequired == 0 && ss[3].m.fp == ss[0].m.fp[0 := v] && ss[3].m.fpscr == ss[0].m.fpscr
    ensures Spilled(c, ss, es, v)
  {
    OneEpisode(c, ss, es);
    InterruptsAreTransparent(c, ss, es, 0, 4);
    SpilledFp(ss[0].m, ss[3].m, es[3].eoi, v);
  }

  lemma OneEpisode(c: Layout, ss: seq<Sys>, es: seq<Event>)
    requires Run(c, ss, es) && |es| == 4
    requires |ss[0].lv| == 0 && |ss[1].lv| == |ss[2].lv| == |ss[3].lv| == 1 && |ss[4].lv| == 0
    ensures Returns(ss, 0, 4) && ss[0].m.nesting == 0
  {
    forall k | 0 <= k < |ss| ensures ss[k].m.nesting == |ss[k].lv| {
      RunNesting(c, ss, es, k);
    }
  }

  lemma SpilledFp(a: Machine, m: Machine, eoi: CReturn, v: Word)
    requires m.fp == a.fp[0 := v] && m.fpscr == a.fpscr && KeepsFp(m, eoi)
    ensures ClobberedFp(a.fp, eoi) == a.fp[0 := v] && eoi.fpscr == a.fpscr
    ensures KeepsFp(a, eoi) <==> a.fp[0] == v
  {
    assert a.fp == a.fp[..16] + a.fp[16..] && a.fp[0 := v] == a.fp[0 := v][..16] + a.fp[16..];
    assert a.fp[0 := v][..16][0] == v;
  }
}
