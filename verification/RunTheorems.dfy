/** What holds of every run from reset: interrupts are transparent at any depth, tasks are
    isolated from each other, switch requests are served once, nothing overflows. */
module RunTheorems {
  import opened Arm
  import opened PortAsm
  import opened BspIrq
  import opened TaskFrames
  import opened PortC
  import opened Runs
  import opened Invariant
  import opened ExitProofs

  // ---- runs --------------------------------------------------------------------------

  type StackTop = w: int | 220 <= w < WORDS witness 220

  datatype Start = Start(top: StackTop, code: Word, param: Word, exit: Word)

  /** Every task's stack has just been built by pxPortInitialiseStack, nothing is nested, and
      vPortRestoreTaskContext starts the current task. */
  ghost predicate Boots(c: Layout, m: Machine, starts: seq<Start>, s: Sys) {
    && c.Valid() && |starts| == |m.tops| == |c.hi| && m.cur < |c.hi|
    && m.nesting == 0 && m.pointer == 0 && m.yieldRequired == 0
    && m.spIrq == c.irqTop && m.spSvc == c.svcTop
    && m.sw == [0, 0, 0, 0] && m.epi[6] == 0
    && (forall t :: 0 <= t < |starts| ==> Built(c, m, t, starts[t]))
    && s == Sys(Restored(c.fpu, m), [],
                map t | 0 <= t < |starts| ::
                  NewTask(c.fpu, starts[t].top, starts[t].code, starts[t].param, starts[t].exit, m),
                false)
  }

  ghost predicate Built(c: Layout, m: Machine, t: nat, b: Start)
    requires t < |m.tops| == |c.hi| == |c.lo|
  {
    && m.tops[t] == b.top - 8 - FrameSize(c.fpu, 1)
    && c.lo[t] <= m.tops[t] && b.top - 8 <= c.hi[t]
    && Rds(m.mem, m.tops[t], FrameSize(c.fpu, 1) / 4) == NewFrame(c.fpu, b.code, b.param, b.exit)
  }

  ghost predicate Booted(c: Layout, s: Sys) {
    exists m, starts :: Boots(c, m, starts, s)
  }

  ghost predicate Run(c: Layout, ss: seq<Sys>, es: seq<Event>) {
    && |ss| == |es| + 1
    && Booted(c, ss[0])
    && forall i :: 0 <= i < |es| ==> StepAt(c, ss, es, i)
  }

  ghost predicate StepAt(c: Layout, ss: seq<Sys>, es: seq<Event>, i: nat)
    requires |ss| == |es| + 1 && i < |es|
  {
    Next(c, ss[i], ss[i + 1], es[i])
  }

  lemma BootKeepsInv(c: Layout, m: Machine, starts: seq<Start>, s: Sys)
    requires Boots(c, m, starts, s)
    ensures Inv(c, s)
    ensures s.m.cur < |starts| && s.m.pc == starts[s.m.cur].code && s.m.r[0] == starts[s.m.cur].param
    ensures s.m.cpsr.mode == SYS_MODE && !s.m.cpsr.irqOff
  {
    BootStarts(c, m, starts, s);
    BootTasks(c, m, starts, s);
    assert Core(c, s);
  }

  lemma BootStarts(c: Layout, m: Machine, starts: seq<Start>, s: Sys)
    requires Boots(c, m, starts, s)
    ensures m.cur in s.susp && Parked(c, m, m.cur, s.susp[m.cur]) && s.m == Resumed(c.fpu, m, s.susp[m.cur])
    ensures s.m.pc == starts[m.cur].code && s.m.r[0] == starts[m.cur].param
    ensures s.m.cpsr.mode == SYS_MODE && !s.m.cpsr.irqOff
  {
    BootParks(c, m, starts, s);
    assert Built(c, m, m.cur, starts[m.cur]);
    BootResumes(c, m, starts[m.cur], s.m, s.susp[m.cur]);
  }

  lemma BootTasks(c: Layout, m: Machine, starts: seq<Start>, s: Sys)
    requires Boots(c, m, starts, s) && s.m.tops == m.tops && s.m.mem == m.mem && s.m.cur == m.cur
    ensures Tasks(c, s.m, s.susp)
  {
    BootParks(c, m, starts, s);
    forall t | 0 <= t < |starts| && t != m.cur ensures Parked(c, s.m, t, s.susp[t]) {
      ParkedKept(c, m, s.m, t, s.susp[t]);
    }
  }

  lemma BootResumes(c: Layout, m: Machine, b: Start, n: Machine, x: Machine)
    requires m.cur < |m.tops| == |c.hi| == |c.lo| && Built(c, m, m.cur, b) && n == Restored(c.fpu, m)
    requires x == NewTask(c.fpu, b.top, b.code, b.param, b.exit, m) && Parked(c, m, m.cur, x)
    ensures n == Resumed(c.fpu, m, x)
    ensures n.pc == b.code && n.r[0] == b.param && n.cpsr.mode == SYS_MODE && !n.cpsr.irqOff
  {
    NewTaskStarts(c.fpu, m, b.top, b.code, b.param, b.exit);
    RestoreReadsFrame(c.fpu, m, x);
  }

  lemma BootParks(c: Layout, m: Machine, starts: seq<Start>, s: Sys)
    requires Boots(c, m, starts, s)
    ensures forall t :: 0 <= t < |starts| ==> t in s.susp && Parked(c, m, t, s.susp[t])
  {
    forall t | 0 <= t < |starts| ensures t in s.susp && Parked(c, m, t, s.susp[t]) {
      assert Built(c, m, t, starts[t]);
      NewFrameIsTaskFrame(c.fpu, starts[t].top, starts[t].code, starts[t].param, starts[t].exit, m);
    }
  }

  lemma StepKeepsInv(c: Layout, s: Sys, s': Sys, e: Event)
    requires Inv(c, s) && Next(c, s, s', e)
    ensures Inv(c, s')
  {
    match e
    case Task => TaskKeepsInv(c, s, s');
    case Irq(ack, prio) => IrqKeepsInv(c, s, s', ack, prio);
    case Isr => IsrKeepsInv(c, s, s');
    case Done => DoneKeepsInv(c, s, s');
    case Exit(ret, eoi, sched, next) => ExitKeepsInv(c, s, s', ret, eoi, sched, next);
    case Svc(at, sched, next) => SvcSwitches(c, s, s', at, sched, next);
  }

  lemma RunStart(c: Layout, ss: seq<Sys>, es: seq<Event>)
    requires Run(c, ss, es)
    ensures Inv(c, ss[0])
  {
    var m, starts :| Boots(c, m, starts, ss[0]);
    BootKeepsInv(c, m, starts, ss[0]);
  }

  lemma RunStep(c: Layout, ss: seq<Sys>, es: seq<Event>, i: nat)
    requires Run(c, ss, es) && i < |es|
    ensures Next(c, ss[i], ss[i + 1], es[i])
  {
    assert StepAt(c, ss, es, i);
  }

  lemma InvStepAt(c: Layout, ss: seq<Sys>, es: seq<Event>, i: nat)
    requires Run(c, ss, es) && i < |es| && Inv(c, ss[i])
    ensures Inv(c, ss[i + 1])
  {
    RunStep(c, ss, es, i);
    StepKeepsInv(c, ss[i], ss[i + 1], es[i]);
  }

  /** The invariant holds in every state of every run. */
  lemma {:induction false} RunKeepsInv(c: Layout, ss: seq<Sys>, es: seq<Event>, i: nat)
    requires Run(c, ss, es) && i < |ss|
    ensures Inv(c, ss[i])
  {
    if i == 0 {
      RunStart(c, ss, es);
    } else {
      var k := i - 1;
      RunKeepsInv(c, ss, es, k);
      InvStepAt(c, ss, es, k);
      assert ss[i] == ss[k + 1];
    }
  }

  // ---- nesting -----------------------------------------------------------------------

  /** From i on the machine stays nested deeper than at i, and j is the first state back. */
  ghost predicate Returns(ss: seq<Sys>, i: nat, j: nat) {
    i < j < |ss| && ss[j].m.nesting == ss[i].m.nesting && Deeper(ss, i, j)
  }

  ghost predicate Deeper(ss: seq<Sys>, i: nat, j: nat)
    requires i < |ss|
  {
    forall k :: i < k < j && k < |ss| ==> ss[k].m.nesting > ss[i].m.nesting
  }

  /** What a step does to the levels: only entry pushes, only exit pops, only the handler's return
      marks the top one. */
  ghost predicate LevelsMove(s: Sys, s': Sys, e: Event) {
    match e
    case Irq(ack, prio) => s'.lv == s.lv + [Level(s.m, ack.r0, ack.r0, prio, Spurious(ack.r0))]
    case Done => |s.lv| > 0 && s'.lv == s.lv[|s.lv| - 1 := s.lv[|s.lv| - 1].(tail := true)]
    case Exit(_, _, _, _) => |s.lv| > 0 && s'.lv == s.lv[..|s.lv| - 1]
    case _ => s'.lv == s.lv
  }

  lemma StepLevels(c: Layout, s: Sys, s': Sys, e: Event)
    requires Next(c, s, s', e)
    ensures LevelsMove(s, s', e)
  {
  }

  /** One step changes the depth by at most one and never rewrites an outer level. */
  lemma RunLevels(c: Layout, ss: seq<Sys>, es: seq<Event>, i: nat, d: nat)
    requires Run(c, ss, es) && i < |es|
    ensures ss[i].m.nesting == |ss[i].lv| && ss[i + 1].m.nesting == |ss[i + 1].lv|
    ensures |ss[i + 1].lv| <= |ss[i].lv| + 1 && |ss[i + 1].lv| + 1 >= |ss[i].lv|
    ensures |ss[i + 1].lv| < |ss[i].lv| ==> es[i].Exit?
    ensures es[i].Irq? ==> var k := |ss[i].lv|;
              |ss[i + 1].lv| == k + 1 && ss[i + 1].lv[k].at == ss[i].m && ss[i + 1].lv[k].icciar == es[i].ack.r0
    ensures d < |ss[i].lv| && d < |ss[i + 1].lv| ==>
              ss[i + 1].lv[d].at == ss[i].lv[d].at && ss[i + 1].lv[d].icciar == ss[i].lv[d].icciar
  {
    RunNesting(c, ss, es, i);
    RunNesting(c, ss, es, i + 1);
    LevelsMoveAt(c, ss, es, i);
  }

  lemma LevelsMoveAt(c: Layout, ss: seq<Sys>, es: seq<Event>, i: nat)
    requires Run(c, ss, es) && i < |es|
    ensures LevelsMove(ss[i], ss[i + 1], es[i])
  {
    RunStep(c, ss, es, i);
    StepLevels(c, ss[i], ss[i + 1], es[i]);
  }

  lemma RunNesting(c: Layout, ss: seq<Sys>, es: seq<Event>, i: nat)
    requires Run(c, ss, es) && i < |ss|
    ensures ss[i].m.nesting == |ss[i].lv|
    ensures |ss[i].lv| == 0 ==>
              ss[i].m.yieldRequired == 0 && ss[i].m.spSvc == c.svcTop && ss[i].m.spIrq == c.irqTop
              && ss[i].m.cpsr.mode == SYS_MODE
  {
    RunKeepsInv(c, ss, es, i);
  }

  /** While a level is being served, the history remembers the machine it interrupted. */
  lemma {:induction false} LevelPersists(c: Layout, ss: seq<Sys>, es: seq<Event>, i: nat, k: nat)
    requires Run(c, ss, es) && i < k < |ss| && es[i].Irq? && Deeper(ss, i, k + 1)
    ensures var d := ss[i].m.nesting;
            |ss[k].lv| > d && ss[k].lv[d].at == ss[i].m && ss[k].lv[d].icciar == es[i].ack.r0
    decreases k
  {
    RunLevels(c, ss, es, k - 1, ss[i].m.nesting);
    if k > i + 1 {
      LevelPersists(c, ss, es, i, k - 1);
    }
  }

  /** The step that comes back is the exit of the interrupt taken at i. */
  lemma ReturnIsExit(c: Layout, ss: seq<Sys>, es: seq<Event>, i: nat, j: nat)
    requires Run(c, ss, es) && Returns(ss, i, j) && es[i].Irq?
    ensures i + 1 < j && es[j - 1].Exit?
    ensures |ss[j - 1].lv| == ss[i].m.nesting + 1 && ss[j - 1].lv[ss[i].m.nesting].at == ss[i].m
    ensures |ss[j].lv| == ss[i].m.nesting
  {
    RunLevels(c, ss, es, i, 0);
    RunLevels(c, ss, es, j - 1, 0);
    LevelPersists(c, ss, es, i, j - 1);
  }

  /** NESTED INTERRUPTS ARE TRANSPARENT.  Whatever happens in between, at whatever depth, the
      machine an interrupt exit returns to is the machine the interrupt was taken from, unless
      it was the outermost one and a task switch was requested; but for two things IRQ_Handler
      does not save.  D0-D7 and FPSCR are as its last C call, FreeRTOS_EndOfInterrupt, leaves
      them (see module FpState), and so is lr_svc without lr in the frame (see module Defects). */
  lemma InterruptsAreTransparent(c: Layout, ss: seq<Sys>, es: seq<Event>, i: nat, j: nat)
    requires Run(c, ss, es) && Returns(ss, i, j) && es[i].Irq?
    requires ss[i].m.nesting > 0 || ss[j - 1].m.yieldRequired == 0
    ensures es[j - 1].Exit?
    ensures var a, eoi := ss[i].m, es[j - 1].eoi;
            && Back(c, ss[j].m, FpLeft(a, eoi), LrBack(c.frame, a, eoi))
            && (Resumes(c, ss[j].m, a) <==> KeepsFp(a, eoi) && (c.frame == WithLr || eoi.lr == a.lrSvc))
    ensures ss[j].m.yieldRequired == ss[j - 1].m.yieldRequired
  {
    ReturnIsExit(c, ss, es, i, j);
    PlainExit(c, ss, es, j - 1);
    ResumesIff(c, ss[j].m, ss[i].m, es[j - 1].eoi);
  }

  lemma ResumesIff(c: Layout, n: Machine, a: Machine, eoi: CReturn)
    requires Back(c, n, FpLeft(a, eoi), LrBack(c.frame, a, eoi))
    ensures Resumes(c, n, a) <==> KeepsFp(a, eoi) && LrBack(c.frame, a, eoi) == a.lrSvc
  {
    KeptFp(a, eoi);
  }

  /** EVERY INTERRUPT ENDS ITSELF.  Whatever nested meanwhile, at any depth: its handler starts with
      the acknowledged word in r0, the exit finds the same word in r4, which is what it passes to
      FreeRTOS_EndOfInterrupt (Cortex.IrqExit), and leaves it in g_r8_epi[7]. */
  lemma EndsWhatItTook(c: Layout, ss: seq<Sys>, es: seq<Event>, i: nat, j: nat)
    requires Run(c, ss, es) && Returns(ss, i, j) && es[i].Irq?
    ensures ss[i + 1].m.r[0] == ss[i + 1].m.r[4] == es[i].ack.r0
    ensures es[j - 1].Exit? && |ss[j - 1].lv| > 0
    ensures AtReturn(c.frame, ss[j - 1].m, ss[j - 1].lv[|ss[j - 1].lv| - 1], es[j - 1].ret).r[4] == es[i].ack.r0
    ensures ss[j].m.epi[7] == es[i].ack.r0
  {
    ReturnIsExit(c, ss, es, i, j);
    LevelPersists(c, ss, es, i, j - 1);
    EntryArgument(c, ss, es, i);
    TopKeepsIcciar(c, ss, es, j - 1);
    ExitNamesAt(c, ss, es, j - 1);
  }

  lemma ExitNamesAt(c: Layout, ss: seq<Sys>, es: seq<Event>, i: nat)
    requires Run(c, ss, es) && i < |es| && es[i].Exit?
    ensures |ss[i].lv| > 0
    ensures var top, epi := ss[i].lv[|ss[i].lv| - 1], ss[i + 1].m.epi;
            && epi[7] == AtReturn(c.frame, ss[i].m, top, es[i].ret).r[4] == top.r4 && epi[5] / 0x80 % 2 == 1
            && epi[2] == Add32(Add32(top.Base(c.frame), 4), epi[1])
  {
    RunStep(c, ss, es, i);
    ExitNames(c, ss[i], ss[i + 1], es[i]);
  }

  lemma EntryArgument(c: Layout, ss: seq<Sys>, es: seq<Event>, i: nat)
    requires Run(c, ss, es) && i < |es| && es[i].Irq?
    ensures ss[i + 1].m.r[0] == ss[i + 1].m.r[4] == es[i].ack.r0
  {
    RunStep(c, ss, es, i);
  }

  lemma TopKeepsIcciar(c: Layout, ss: seq<Sys>, es: seq<Event>, i: nat)
    requires Run(c, ss, es) && i < |ss| && |ss[i].lv| > 0
    ensures var top := ss[i].lv[|ss[i].lv| - 1]; top.r4 == top.icciar
  {
    RunKeepsInv(c, ss, es, i);
    assert LevelShape(c, ss[i].lv, |ss[i].lv| - 1);
  }

  lemma ExitNames(c: Layout, s: Sys, s': Sys, e: Event)
    requires e.Exit? && Next(c, s, s', e)
    ensures |s.lv| > 0
    ensures var b := AtReturn(c.frame, s.m, s.lv[|s.lv| - 1], e.ret);
            && s'.m.epi[7] == b.r[4] == s.lv[|s.lv| - 1].r4 && s'.m.epi[5] / 0x80 % 2 == 1
            && s'.m.epi[2] == Add32(Add32(b.spSvc, 4), s'.m.epi[1])
  {
    var b := AtReturn(c.frame, s.m, s.lv[|s.lv| - 1], e.ret);
    ExitSnapshotIs(c.frame, c.fpu, b, e.eoi, e.sched, e.next);
  }

  lemma PlainExit(c: Layout, ss: seq<Sys>, es: seq<Event>, i: nat)
    requires Run(c, ss, es) && i < |es| && es[i].Exit? && (|ss[i].lv| > 1 || ss[i].m.yieldRequired == 0)
    ensures |ss[i].lv| > 0
    ensures var a := ss[i].lv[|ss[i].lv| - 1].at;
            Back(c, ss[i + 1].m, FpLeft(a, es[i].eoi), LrBack(c.frame, a, es[i].eoi))
    ensures ss[i + 1].m.yieldRequired == ss[i].m.yieldRequired
  {
    RunKeepsInv(c, ss, es, i);
    RunStep(c, ss, es, i);
    PlainExitStep(c, ss[i], ss[i + 1], es[i]);
  }

  lemma PlainExitStep(c: Layout, s: Sys, s': Sys, e: Event)
    requires Inv(c, s) && Next(c, s, s', e) && e.Exit? && (|s.lv| > 1 || s.m.yieldRequired == 0)
    ensures |s.lv| > 0 && s'.m.yieldRequired == s.m.yieldRequired
    ensures var a := s.lv[|s.lv| - 1].at; Back(c, s'.m, FpLeft(a, e.eoi), LrBack(c.frame, a, e.eoi))
  {
    ExitResumes(c, s, s', e.ret, e.eoi, e.sched, e.next);
  }

  // ---- tasks -------------------------------------------------------------------------

  /** The outermost exit with a request suspends the task as it was when the interrupt came,
      with the floating-point registers as the interrupt left them, and continues the task the
      scheduler chose exactly as that one was suspended. */
  lemma SwitchingExit(c: Layout, ss: seq<Sys>, es: seq<Event>, i: nat, j: nat)
    requires Run(c, ss, es) && Returns(ss, i, j) && es[i].Irq?
    requires ss[i].m.nesting == 0 && ss[j - 1].m.yieldRequired != 0
    ensures ss[i].m.cpsr.mode == SYS_MODE && ss[j].m.cur < |c.hi|
    ensures es[j - 1].Exit? && ss[j].susp == ss[j - 1].susp[ss[i].m.cur := FpLeft(ss[i].m, es[j - 1].eoi)]
    ensures ss[j].m.cur in ss[j].susp && Continues(c, ss[j].m, ss[j].susp[ss[j].m.cur])
    ensures ss[j].m.yieldRequired == 0 && ss[j].m.sw[0] == Add32(ss[i].m.sw[0], 1)
  {
    ReturnIsExit(c, ss, es, i, j);
    RequestedExit(c, ss, es, j - 1);
  }

  lemma RequestedExit(c: Layout, ss: seq<Sys>, es: seq<Event>, i: nat)
    requires Run(c, ss, es) && i < |es| && es[i].Exit? && |ss[i].lv| == 1 && ss[i].m.yieldRequired != 0
    ensures var s, n, a := ss[i], ss[i + 1], ss[i].lv[0].at;
            && a.cpsr.mode == SYS_MODE && n.susp == s.susp[a.cur := FpLeft(a, es[i].eoi)]
            && n.m.cur < |c.hi| && n.m.cur in n.susp && Continues(c, n.m, n.susp[n.m.cur])
            && n.m.yieldRequired == 0 && n.m.sw[0] == Add32(a.sw[0], 1)
  {
    RunKeepsInv(c, ss, es, i);
    RunStep(c, ss, es, i);
    var s, e := ss[i], es[i];
    assert LevelShape(c, s.lv, 0) && Frozen(s.m, s.lv[0].at);
    ExitSwitches(c, s, ss[i + 1], e.ret, e.eoi, e.sched, e.next);
  }

  /** A step does not disturb the record of a task that was not running. */
  lemma SuspKept(c: Layout, s: Sys, s': Sys, e: Event, t: nat)
    requires Next(c, s, s', e) && s.m.cur != t && t in s.susp
    ensures t in s'.susp && s'.susp[t] == s.susp[t]
  {
  }

  lemma SuspKeptAt(c: Layout, ss: seq<Sys>, es: seq<Event>, i: nat, t: nat)
    requires Run(c, ss, es) && i < |es| && ss[i].m.cur != t && t in ss[i].susp
    ensures t in ss[i + 1].susp && ss[i + 1].susp[t] == ss[i].susp[t]
  {
    RunStep(c, ss, es, i);
    SuspKept(c, ss[i], ss[i + 1], es[i], t);
  }

  lemma {:induction false} SuspPersists(c: Layout, ss: seq<Sys>, es: seq<Event>, i: nat, j: nat, t: nat)
    requires Run(c, ss, es) && i <= j < |ss| && t in ss[i].susp
    requires forall k :: i <= k < j ==> ss[k].m.cur != t
    ensures t in ss[j].susp && ss[j].susp[t] == ss[i].susp[t]
    decreases j
  {
    if i < j {
      SuspPersists(c, ss, es, i, j - 1, t);
      SuspKeptAt(c, ss, es, j - 1, t);
    }
  }

  /** Only SVC and the outermost exit with a request can change the running task. */
  lemma CurChanges(c: Layout, s: Sys, s': Sys, e: Event)
    requires Inv(c, s) && Next(c, s, s', e)
    ensures s'.m.cur != s.m.cur ==> e.Svc? || (e.Exit? && |s.lv| == 1 && s.m.yieldRequired != 0)
  {
    if e.Exit? && (|s.lv| > 1 || s.m.yieldRequired == 0) {
      ExitResumes(c, s, s', e.ret, e.eoi, e.sched, e.next);
      assert Frozen(s.m, s.lv[|s.lv| - 1].at);
    }
  }

  /** A SWITCH IS TAKEN ONLY FROM A TASK.  The step after which another task runs finds nesting
      back at 0, and continues that task from its record. */
  lemma ResumingStep(c: Layout, ss: seq<Sys>, es: seq<Event>, i: nat)
    requires Run(c, ss, es) && i < |es| && ss[i + 1].m.cur != ss[i].m.cur
    ensures var n := ss[i + 1].m;
            && n.cur < |c.hi| && n.cur in ss[i + 1].susp && Continues(c, n, ss[i + 1].susp[n.cur])
            && n.nesting == 0 && n.cpsr.mode == SYS_MODE && n.spSvc == c.svcTop && n.spIrq == c.irqTop
    ensures (es[i].Svc? && ss[i].m.nesting == 0) || (es[i].Exit? && ss[i].m.nesting == 1)
  {
    RunNesting(c, ss, es, i);
    CurChangesAt(c, ss, es, i);
    if es[i].Svc? {
      YieldRecords(c, ss, es, i);
    } else {
      RequestedExit(c, ss, es, i);
      RunLevels(c, ss, es, i, 0);
      ExitPops(c, ss, es, i);
    }
    RunNesting(c, ss, es, i + 1);
  }

  lemma CurChangesAt(c: Layout, ss: seq<Sys>, es: seq<Event>, i: nat)
    requires Run(c, ss, es) && i < |es| && ss[i + 1].m.cur != ss[i].m.cur
    ensures es[i].Svc? || (es[i].Exit? && |ss[i].lv| == 1 && ss[i].m.yieldRequired != 0)
  {
    RunKeepsInv(c, ss, es, i);
    RunStep(c, ss, es, i);
    CurChanges(c, ss[i], ss[i + 1], es[i]);
  }

  lemma ExitPops(c: Layout, ss: seq<Sys>, es: seq<Event>, i: nat)
    requires Run(c, ss, es) && i < |es| && es[i].Exit?
    ensures |ss[i].lv| > 0 && ss[i + 1].lv == ss[i].lv[..|ss[i].lv| - 1]
  {
    RunStep(c, ss, es, i);
  }

  /** t, recorded in state i and not running from i on, continues from that record at j. */
  lemma ResumedFromRecord(c: Layout, ss: seq<Sys>, es: seq<Event>, i: nat, j: nat, t: nat)
    requires Run(c, ss, es) && i < j < |ss| && t in ss[i].susp
    requires ss[j].m.cur == t && forall k :: i <= k < j ==> ss[k].m.cur != t
    ensures t < |c.hi| && Continues(c, ss[j].m, ss[i].susp[t])
    ensures ss[j].m.nesting == 0 && ss[j].m.spSvc == c.svcTop && ss[j].m.spIrq == c.irqTop
  {
    SuspPersists(c, ss, es, i, j, t);
    ResumingStep(c, ss, es, j - 1);
  }

  /** TASK ISOLATION.  A task switched out by an interrupt taken at p and next resumed at j has,
      at j, the registers, return state, critical nesting and live stack it had at p, whatever
      other tasks, handlers and scheduler choices did meanwhile.  The floating-point registers
      are as the interrupt that switched it out left them: those it had at p exactly when
      FreeRTOS_EndOfInterrupt left D0-D7 and FPSCR at what they were then. */
  lemma IsolatedFromInterruptToResume(c: Layout, ss: seq<Sys>, es: seq<Event>, p: nat, i: nat, j: nat)
    requires Run(c, ss, es) && Returns(ss, p, i) && es[p].Irq? && ss[p].m.nesting == 0
    requires ss[i - 1].m.yieldRequired != 0 && i <= j < |ss|
    requires ss[j].m.cur == ss[p].m.cur && forall k :: i <= k < j ==> ss[k].m.cur != ss[p].m.cur
    ensures ss[j].m.cur < |c.hi| && es[i - 1].Exit?
    ensures Continues(c, ss[j].m, FpLeft(ss[p].m, es[i - 1].eoi))
    ensures Continues(c, ss[j].m, ss[p].m) <==>
              (c.fpu && ss[p].m.hasFpu != 0 ==> KeepsFp(ss[p].m, es[i - 1].eoi))
    ensures ss[j].m.nesting == 0 && ss[j].m.spSvc == c.svcTop && ss[j].m.spIrq == c.irqTop
  {
    SwitchingExit(c, ss, es, p, i);
    if i < j {
      ResumedFromRecord(c, ss, es, i, j, ss[p].m.cur);
    } else {
      RunNesting(c, ss, es, i);
      ReturnIsExit(c, ss, es, p, i);
    }
    ContinuesIff(c, ss[j].m, ss[p].m, es[i - 1].eoi);
  }

  lemma ContinuesIff(c: Layout, n: Machine, a: Machine, eoi: CReturn)
    requires n.cur < |c.hi| && Continues(c, n, FpLeft(a, eoi))
    ensures Continues(c, n, a) <==> (c.fpu && a.hasFpu != 0 ==> KeepsFp(a, eoi))
  {
    KeptFp(a, eoi);
  }

  /** The same for a task that gave up the processor with SVC: it resumes behind the SVC. */
  lemma IsolatedFromYieldToResume(c: Layout, ss: seq<Sys>, es: seq<Event>, i: nat, j: nat)
    requires Run(c, ss, es) && i < |es| && es[i].Svc? && i + 1 <= j < |ss|
    requires ss[j].m.cur == ss[i].m.cur && forall k :: i + 1 <= k < j ==> ss[k].m.cur != ss[i].m.cur
    ensures ss[j].m.cur < |c.hi| && Continues(c, ss[j].m, ss[i].m.(pc := es[i].at))
    ensures ss[j].m.nesting == 0 && ss[j].m.spSvc == c.svcTop && ss[j].m.spIrq == c.irqTop
  {
    YieldRecords(c, ss, es, i);
    if i + 1 < j {
      ResumedFromRecord(c, ss, es, i + 1, j, ss[i].m.cur);
    }
  }

  lemma YieldRecords(c: Layout, ss: seq<Sys>, es: seq<Event>, i: nat)
    requires Run(c, ss, es) && i < |es| && es[i].Svc?
    ensures |ss[i].lv| == 0 && ss[i + 1].susp == ss[i].susp[ss[i].m.cur := ss[i].m.(pc := es[i].at)]
    ensures var n := ss[i + 1].m;
            && n.cur < |c.hi| && n.cur in ss[i + 1].susp && Continues(c, n, ss[i + 1].susp[n.cur])
            && n.nesting == 0 && n.spSvc == c.svcTop && n.spIrq == c.irqTop
  {
    RunKeepsInv(c, ss, es, i);
    RunStep(c, ss, es, i);
    SvcSwitches(c, ss[i], ss[i + 1], es[i].at, es[i].sched, es[i].next);
  }

  // ---- switch requests ---------------------------------------------------------------

  /** A step that stays nested never clears a request. */
  lemma RequestKept(c: Layout, ss: seq<Sys>, es: seq<Event>, i: nat)
    requires Run(c, ss, es) && i < |es| && ss[i].m.yieldRequired != 0 && ss[i + 1].m.nesting > 0
    ensures ss[i + 1].m.yieldRequired != 0
  {
    RunLevels(c, ss, es, i, 0);
    RunNesting(c, ss, es, i);
    if es[i].Exit? {
      ExitPops(c, ss, es, i);
      PlainExit(c, ss, es, i);
    } else {
      RunStep(c, ss, es, i);
    }
  }

  /** Within an episode a request, once made, stays until the exit. */
  lemma {:induction false} RequestSticks(c: Layout, ss: seq<Sys>, es: seq<Event>, i: nat, k: nat, l: nat)
    requires Run(c, ss, es) && i < k <= l < |ss| && Deeper(ss, i, l + 1)
    requires ss[k].m.yieldRequired != 0
    ensures ss[l].m.yieldRequired != 0
    decreases l
  {
    if k < l {
      RequestSticks(c, ss, es, i, k, l - 1);
      RequestKept(c, ss, es, l - 1);
    }
  }

  ghost predicate Asked(ss: seq<Sys>, i: nat, j: nat) {
    exists k :: i < k < j && k < |ss| && ss[k].m.yieldRequired != 0
  }

  /** NO REQUEST IS LOST OR SERVED TWICE.  An interrupt episode [i, j] switches tasks exactly
      once if any of its levels asked, not at all otherwise, and leaves the flag clear. */
  lemma RequestsServedOnce(c: Layout, ss: seq<Sys>, es: seq<Event>, i: nat, j: nat)
    requires Run(c, ss, es) && Returns(ss, i, j) && es[i].Irq? && ss[i].m.nesting == 0
    ensures ss[j].m.yieldRequired == 0
    ensures ss[j].m.sw[0] == if Asked(ss, i, j) then Add32(ss[i].m.sw[0], 1) else ss[i].m.sw[0]
    ensures es[j - 1].Exit?
    ensures var a := FpLeft(ss[i].m, es[j - 1].eoi);
            if Asked(ss, i, j) then ss[j].susp == ss[j - 1].susp[ss[i].m.cur := a]
            else Back(c, ss[j].m, a, ss[j].m.lrSvc) && (c.frame == WithLr ==> Resumes(c, ss[j].m, a))
  {
    ReturnIsExit(c, ss, es, i, j);
    RunNesting(c, ss, es, j);
    if Asked(ss, i, j) {
      var k :| i < k < j && k < |ss| && ss[k].m.yieldRequired != 0;
      RequestSticks(c, ss, es, i, k, j - 1);
      SwitchingExit(c, ss, es, i, j);
    } else {
      assert ss[j - 1].m.yieldRequired == 0;
      InterruptsAreTransparent(c, ss, es, i, j);
    }
  }

  // ---- bounds and instruments --------------------------------------------------------

  /** Every level but a spurious one on top holds a distinct priority. */
  lemma DepthBound(c: Layout, s: Sys)
    requires Core(c, s) && Levels(c, s)
    ensures s.m.pointer <= 16 && s.m.pointer <= s.m.nesting <= s.m.pointer + 1
  {
    var lv := s.lv;
    var d := |lv|;
    var n := if d > 0 && lv[d - 1].tail then d - 1 else d;
    var ps := seq(n, i requires 0 <= i < n => lv[i].prio);
    forall i | 0 <= i < n ensures IsPriority(ps[i]) && !Spurious(lv[i].icciar) {
      assert LevelShape(c, lv, i);
    }
    forall i, j | 0 <= i < j < |ps| ensures ps[j] < ps[i] {
    }
    PriorityPigeonhole(ps);
  }

  /** THE UNCHECKED ID STACK IS NEVER OVERRUN.  In every state of every run at most 16 entries
      are in use, so the store of a new interrupt finds room among 32; the two nesting counters
      differ by at most one, and after a handler has returned the observation
      "pointer != 0" agrees with the exit's test "nesting != 0 after the decrement". */
  lemma NestingBounded(c: Layout, ss: seq<Sys>, es: seq<Event>, i: nat)
    requires Run(c, ss, es) && i < |ss|
    ensures ss[i].m.pointer <= 16 && 0 <= ss[i].m.nesting - ss[i].m.pointer <= 1
    ensures i < |es| && es[i].Irq? && !Spurious(es[i].ack.r0) ==> ss[i].m.pointer < 16
    ensures i < |es| && es[i].Exit? ==> (ss[i].m.pointer != 0 <==> Sub32(ss[i].m.nesting, 1) != 0)
  {
    DepthBoundAt(c, ss, es, i);
    if i < |es| {
      EntryDepthAt(c, ss, es, i);
    }
  }

  lemma DepthBoundAt(c: Layout, ss: seq<Sys>, es: seq<Event>, i: nat)
    requires Run(c, ss, es) && i < |ss|
    ensures ss[i].m.pointer <= 16 && ss[i].m.pointer <= ss[i].m.nesting <= ss[i].m.pointer + 1
    ensures |ss[i].lv| > 0 && ss[i].lv[|ss[i].lv| - 1].tail ==> ss[i].m.pointer + 1 == ss[i].m.nesting
  {
    RunKeepsInv(c, ss, es, i);
    DepthBound(c, ss[i]);
  }

  lemma EntryDepthAt(c: Layout, ss: seq<Sys>, es: seq<Event>, i: nat)
    requires Run(c, ss, es) && i < |es|
    ensures es[i].Irq? && !Spurious(es[i].ack.r0) ==> ss[i].m.pointer < 16
    ensures es[i].Exit? ==> |ss[i].lv| > 0 && ss[i].lv[|ss[i].lv| - 1].tail
  {
    RunStep(c, ss, es, i);
    ExitIsLast(c, ss[i], ss[i + 1], es[i]);
    if es[i].Irq? && !Spurious(es[i].ack.r0) {
      RunKeepsInv(c, ss, es, i);
      EntryDepthStep(c, ss[i], ss[i + 1], es[i].ack, es[i].prio);
    }
  }

  lemma ExitIsLast(c: Layout, s: Sys, s': Sys, e: Event)
    requires Next(c, s, s', e)
    ensures e.Exit? ==> |s.lv| > 0 && s.lv[|s.lv| - 1].tail
  {
  }

  lemma EntryDepthStep(c: Layout, s: Sys, s': Sys, ack: CReturn, prio: int)
    requires Inv(c, s) && IrqStep(c, s, s', ack, prio) && !Spurious(ack.r0)
    ensures s.m.pointer < 16
  {
    EntryDepth(c, s, prio);
  }

  /** A handler that runs, inner interrupts having come and gone, finds its own id on top. */
  lemma HandlerSeesOwnId(c: Layout, ss: seq<Sys>, es: seq<Event>, i: nat, k: nat)
    requires Run(c, ss, es) && i < k < |ss| && es[i].Irq? && Deeper(ss, i, k + 1)
    requires ss[k].m.nesting == ss[i].m.nesting + 1 && ss[k].m.pointer == ss[k].m.nesting
    ensures 0 < ss[k].m.pointer <= 32
    ensures var top := ss[k].m.ids[ss[k].m.pointer - 1];
            && (top + c.idBase) % 0x10000 == es[i].ack.r0 % 1024 && top < 0x10000
            && (c.idBase <= es[i].ack.r0 % 1024 ==> top + c.idBase == es[i].ack.r0 % 1024)
  {
    ActiveIdIsThere(c, ss, es, i, k);
  }

  /** The id of every interrupt whose handler has not returned is in the slot of its depth. */
  lemma ActiveIdIsThere(c: Layout, ss: seq<Sys>, es: seq<Event>, i: nat, k: nat)
    requires Run(c, ss, es) && i < k < |ss| && es[i].Irq? && Deeper(ss, i, k + 1)
    requires ss[k].m.nesting > ss[i].m.nesting + 1 || ss[k].m.pointer == ss[k].m.nesting
    ensures ss[i].m.nesting < 32 && Numbers(ss[k].m.ids[ss[i].m.nesting], es[i].ack.r0, c.idBase)
  {
    LevelPersists(c, ss, es, i, k);
    RunNesting(c, ss, es, k);
    SlotAt(c, ss, es, k, ss[i].m.nesting);
  }

  lemma SlotAt(c: Layout, ss: seq<Sys>, es: seq<Event>, k: nat, d: nat)
    requires Run(c, ss, es) && k < |ss| && d < |ss[k].lv|
    requires d + 1 < |ss[k].lv| || ss[k].m.pointer == ss[k].m.nesting
    ensures d < 32 && Numbers(ss[k].m.ids[d], ss[k].lv[d].icciar, c.idBase)
  {
    RunKeepsInv(c, ss, es, k);
    assert LevelShape(c, ss[k].lv, d);
    NumberIs(ss[k].lv[d].icciar, c.idBase);
  }

  /** Two interrupts active at the same time with different ids have different entries. */
  lemma ActiveIdsDiffer(c: Layout, ss: seq<Sys>, es: seq<Event>, i: nat, h: nat, k: nat)
    requires Run(c, ss, es) && i < h < k < |ss| && es[i].Irq? && es[h].Irq?
    requires Deeper(ss, i, k + 1) && Deeper(ss, h, k + 1) && es[i].ack.r0 % 1024 != es[h].ack.r0 % 1024
    requires ss[k].m.nesting > ss[h].m.nesting + 1 || ss[k].m.pointer == ss[k].m.nesting
    ensures ss[i].m.nesting < ss[h].m.nesting < 32 && ss[k].m.ids[ss[i].m.nesting] != ss[k].m.ids[ss[h].m.nesting]
  {
    assert ss[h].m.nesting > ss[i].m.nesting;
    ActiveIdIsThere(c, ss, es, i, k);
    ActiveIdIsThere(c, ss, es, h, k);
    NumbersDiffer(ss[k].m.ids[ss[i].m.nesting], ss[k].m.ids[ss[h].m.nesting], es[i].ack.r0, es[h].ack.r0, c.idBase);
  }

  // ---- counters ----------------------------------------------------------------------

  function Svcs(es: seq<Event>): nat {
    if es == [] then 0 else Svcs(es[..|es| - 1]) + if es[|es| - 1].Svc? then 1 else 0
  }

  /** How many of the first n steps were exits that switched. */
  ghost function SwitchingExits(ss: seq<Sys>, es: seq<Event>, n: nat): nat
    requires n <= |es| < |ss|
  {
    if n == 0 then 0
    else SwitchingExits(ss, es, n - 1)
         + if es[n - 1].Exit? && ss[n - 1].m.nesting == 1 && ss[n - 1].m.yieldRequired != 0 then 1 else 0
  }

  /** THE SWITCH COUNTERS ARE EXACT, up to their 32 bits: g_r8_sw[2] is the number of SVCs, g_r8_sw[0]
      the number of outermost exits that found a request. */
  lemma {:induction false} SwitchesCounted(c: Layout, ss: seq<Sys>, es: seq<Event>, n: nat)
    requires Run(c, ss, es) && n <= |es|
    ensures ss[n].m.sw[2] == Svcs(es[..n]) % WORDS
    ensures ss[n].m.sw[0] == SwitchingExits(ss, es, n) % WORDS
  {
    if n == 0 {
      StartCounts(c, ss, es);
    } else {
      SwitchesCounted(c, ss, es, n - 1);
      CountStep(c, ss, es, n - 1);
      assert es[..n][..n - 1] == es[..n - 1];
      OneMore(Svcs(es[..n - 1]));
      OneMore(SwitchingExits(ss, es, n - 1));
    }
  }

  lemma OneMore(n: nat)
    ensures (n + 1) % WORDS == Add32(n % WORDS, 1)
  {
  }

  lemma StartCounts(c: Layout, ss: seq<Sys>, es: seq<Event>)
    requires Run(c, ss, es)
    ensures ss[0].m.sw[2] == ss[0].m.sw[0] == 0
  {
    var m, starts :| Boots(c, m, starts, ss[0]);
  }

  lemma CountStep(c: Layout, ss: seq<Sys>, es: seq<Event>, i: nat)
    requires Run(c, ss, es) && i < |es|
    ensures var s, n, e := ss[i].m, ss[i + 1].m, es[i];
            && n.sw[2] == (if e.Svc? then Add32(s.sw[2], 1) else s.sw[2])
            && n.sw[0] == if e.Exit? && s.nesting == 1 && s.yieldRequired != 0 then Add32(s.sw[0], 1) else s.sw[0]
  {
    RunStep(c, ss, es, i);
    CountOne(c, ss[i], ss[i + 1], es[i]);
    if es[i].Exit? {
      RunNesting(c, ss, es, i);
    }
  }

  lemma CountOne(c: Layout, s: Sys, s': Sys, e: Event)
    requires Next(c, s, s', e)
    ensures s'.m.sw[2] == if e.Svc? then Add32(s.m.sw[2], 1) else s.m.sw[2]
    ensures s'.m.sw[0] == if e.Exit? && Sub32(s.m.nesting, 1) == 0 && s.m.yieldRequired != 0 then Add32(s.m.sw[0], 1)
                          else s.m.sw[0]
  {
    match e
    case Exit(_, _, _, _) => CountExit(c, s, s', e);
    case Svc(_, _, _) => CountSvc(c, s, s', e);
    case _ => CountsKept(c, s, s', e);
  }

  lemma CountExit(c: Layout, s: Sys, s': Sys, e: Event)
    requires Next(c, s, s', e) && e.Exit?
    ensures s'.m.sw[2] == s.m.sw[2]
    ensures s'.m.sw[0] == if Sub32(s.m.nesting, 1) == 0 && s.m.yieldRequired != 0
                          then Add32(s.m.sw[0], 1) else s.m.sw[0]
  {
    ExitCounts(c.frame, c.fpu, AtReturn(c.frame, s.m, s.lv[|s.lv| - 1], e.ret), e.eoi, e.sched, e.next);
  }

  lemma CountSvc(c: Layout, s: Sys, s': Sys, e: Event)
    requires Next(c, s, s', e) && e.Svc?
    ensures s'.m.sw[2] == Add32(s.m.sw[2], 1) && s'.m.sw[0] == s.m.sw[0]
  {
    YieldCounts(c.fpu, s.m, e.at, e.sched, e.next);
  }

  lemma CountsKept(c: Layout, s: Sys, s': Sys, e: Event)
    requires Next(c, s, s', e) && !e.Exit? && !e.Svc?
    ensures s'.m.sw == s.m.sw
  {
  }

  /** THE INSTRUMENTS STAY QUIET.  No run shows an exit with interrupts enabled (g_r8_epi[6]) or
      a switch while nested (g_r8_sw[1], [3]); C is called with sp_svc 4 modulo 8 at entry and,
      for FreeRTOS_EndOfInterrupt, at exit; and the exit snapshot finds the padding word where
      the entry put it, with the value the entry gave it, and the frame behind it. */
  lemma InstrumentsStayQuiet(c: Layout, ss: seq<Sys>, es: seq<Event>, i: nat)
    requires Run(c, ss, es) && i < |es|
    ensures ss[i].m.epi[6] == 0 && ss[i].m.sw[1] == 0 && ss[i].m.sw[3] == 0
    ensures es[i].Irq? ==> ss[i + 1].m.spSvc % 8 == 4 && ss[i + 1].m.epi[3] == ss[i + 1].m.spSvc
                           && ss[i + 1].m.epi[4] == Padding(Sub32(ss[i].m.spSvc, c.frame.Bytes()))
    ensures es[i].Exit? ==>
              && |ss[i].lv| > 0
              && var top := ss[i].lv[|ss[i].lv| - 1];
                 var n := ss[i + 1].m;
                 && n.epi[0] == top.Base(c.frame) == AtReturn(c.frame, ss[i].m, top, es[i].ret).spSvc
                 && n.epi[0] % 8 == 4
                 && n.epi[1] == Padding(Sub32(top.at.spSvc, c.frame.Bytes()))
                 && n.epi[2] == top.at.spSvc - c.frame.Bytes() && n.epi[5] / 0x80 % 2 == 1
  {
    QuietState(c, ss, es, i);
    if es[i].Irq? {
      QuietEntry(c, ss, es, i);
    } else if es[i].Exit? {
      QuietExit(c, ss, es, i);
    }
  }

  lemma QuietState(c: Layout, ss: seq<Sys>, es: seq<Event>, i: nat)
    requires Run(c, ss, es) && i < |ss|
    ensures ss[i].m.epi[6] == 0 && ss[i].m.sw[1] == 0 && ss[i].m.sw[3] == 0 && ss[i].m.spSvc % 4 == 0
  {
    RunKeepsInv(c, ss, es, i);
  }

  lemma QuietEntry(c: Layout, ss: seq<Sys>, es: seq<Event>, i: nat)
    requires Run(c, ss, es) && i < |es| && es[i].Irq?
    ensures ss[i + 1].m.spSvc % 8 == 4 && ss[i + 1].m.epi[3] == ss[i + 1].m.spSvc
    ensures ss[i + 1].m.epi[4] == Padding(Sub32(ss[i].m.spSvc, c.frame.Bytes()))
  {
    QuietState(c, ss, es, i);
    RunStep(c, ss, es, i);
    BaseBelow(c.frame, ss[i].m.spSvc);
  }

  lemma QuietExit(c: Layout, ss: seq<Sys>, es: seq<Event>, i: nat)
    requires Run(c, ss, es) && i < |es| && es[i].Exit?
    ensures |ss[i].lv| > 0
    ensures var top := ss[i].lv[|ss[i].lv| - 1];
            && ss[i + 1].m.epi[0] == top.Base(c.frame) && top.Base(c.frame) % 8 == 4
            && ss[i + 1].m.epi[1] == Padding(Sub32(top.at.spSvc, c.frame.Bytes()))
            && ss[i + 1].m.epi[2] == top.at.spSvc - c.frame.Bytes() && ss[i + 1].m.epi[5] / 0x80 % 2 == 1
  {
    ExitNamesAt(c, ss, es, i);
    PaddingRemovedAt(c, ss, es, i);
    ExitSnapshotAt(c, ss, es, i);
  }

  lemma PaddingRemovedAt(c: Layout, ss: seq<Sys>, es: seq<Event>, i: nat)
    requires Run(c, ss, es) && i < |ss| && |ss[i].lv| > 0
    ensures var top := ss[i].lv[|ss[i].lv| - 1];
            Add32(Add32(top.Base(c.frame), 4), Padding(Sub32(top.at.spSvc, c.frame.Bytes())))
            == top.at.spSvc - c.frame.Bytes()
  {
    RunKeepsInv(c, ss, es, i);
    PaddingRemoved(c, ss[i]);
  }

  lemma ExitSnapshotAt(c: Layout, ss: seq<Sys>, es: seq<Event>, i: nat)
    requires Run(c, ss, es) && i < |es| && es[i].Exit?
    ensures |ss[i].lv| > 0
    ensures var top := ss[i].lv[|ss[i].lv| - 1];
            && ss[i + 1].m.epi[0] == top.Base(c.frame) && top.Base(c.frame) % 8 == 4
            && ss[i + 1].m.epi[1] == Padding(Sub32(top.at.spSvc, c.frame.Bytes()))
  {
    RunKeepsInv(c, ss, es, i);
    RunStep(c, ss, es, i);
    ExitSnapshot(c, ss[i], ss[i + 1], es[i]);
  }

  lemma PaddingRemoved(c: Layout, s: Sys)
    requires Inv(c, s) && |s.lv| > 0
    ensures var a := s.lv[|s.lv| - 1].at;
            Add32(Add32(s.lv[|s.lv| - 1].Base(c.frame), 4), Padding(Sub32(a.spSvc, c.frame.Bytes())))
            == a.spSvc - c.frame.Bytes()
  {
    TopLevel(c, s);
    BaseBelow(c.frame, s.lv[|s.lv| - 1].at.spSvc);
  }

  lemma ExitSnapshot(c: Layout, s: Sys, s': Sys, e: Event)
    requires Inv(c, s) && e.Exit? && Next(c, s, s', e)
    ensures |s.lv| > 0
    ensures var top := s.lv[|s.lv| - 1];
            && s'.m.epi[0] == top.Base(c.frame) && top.Base(c.frame) % 8 == 4
            && s'.m.epi[1] == Padding(Sub32(top.at.spSvc, c.frame.Bytes()))
  {
    ExitEpi(c, s, s', e);
    ExitReads(c, s, s', e);
    TopAligned(c, s);
  }

  lemma ExitEpi(c: Layout, s: Sys, s': Sys, e: Event)
    requires e.Exit? && Next(c, s, s', e)
    ensures |s.lv| > 0
    ensures s'.m.epi == FramesPopped(c.frame, Finished(AtReturn(c.frame, s.m, s.lv[|s.lv| - 1], e.ret), e.eoi)).epi
  {
    ExitKeepsEpi(c.frame, c.fpu, AtReturn(c.frame, s.m, s.lv[|s.lv| - 1], e.ret), e.eoi, e.sched, e.next);
  }

  /** The word popped is the padding word pushed, read where it was pushed. */
  lemma ExitReads(c: Layout, s: Sys, s': Sys, e: Event)
    requires Inv(c, s) && e.Exit? && Next(c, s, s', e) && |s.lv| > 0
    ensures var top := s.lv[|s.lv| - 1];
            var u := FramesPopped(c.frame, Finished(AtReturn(c.frame, s.m, top, e.ret), e.eoi));
            u.epi[0] == top.Base(c.frame) && u.epi[1] == Padding(Sub32(top.at.spSvc, c.frame.Bytes()))
  {
    ExitRecovers(c, s, s', e.ret, e.eoi, e.sched, e.next);
  }

  lemma TopAligned(c: Layout, s: Sys)
    requires Inv(c, s) && |s.lv| > 0
    ensures s.lv[|s.lv| - 1].Base(c.frame) % 8 == 4
  {
    TopLevel(c, s);
    BaseBelow(c.frame, s.lv[|s.lv| - 1].at.spSvc);
  }

  lemma ExitKeepsEpi(f: Frame, fpu: bool, b: Machine, eoi: CReturn, sched: CReturn, next: nat)
    requires b.cur < |b.tops| && next < |b.tops|
    ensures Exited(f, fpu, b, eoi, sched, next).epi == FramesPopped(f, Finished(b, eoi)).epi
  {
  }
}
