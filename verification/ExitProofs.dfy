/** Interrupt exit, task switches and SVC yields: what they give back, and that they keep the
    invariant of module Runs. */
module ExitProofs {
  import opened Arm
  import opened PortAsm
  import opened BspIrq
  import opened TaskFrames
  import opened Runs
  import opened Invariant

  // ---- leaving an interrupt ----------------------------------------------------------

  /** n is the interrupted machine again: r0-r12, pc, CPSR, sp and lr of every mode, floating-point
      registers, nesting counts, task state and live stack words; only dead words, the IRQ-mode scratch registers,
      the yield request, the id table above the pointer and the exit snapshot may differ. */
  ghost predicate Resumes(c: Layout, n: Machine, a: Machine) {
    Back(c, n, a, a.lrSvc)
  }

  /** The same but for lr_svc, which holds lr. */
  ghost predicate Back(c: Layout, n: Machine, a: Machine, lr: Word) {
    && n == a.(lrSvc := lr, mem := n.mem, lrIrq := n.lrIrq, spsrIrq := n.spsrIrq,
               yieldRequired := n.yieldRequired, ids := n.ids, epi := n.epi)
    && LevelMem(c, n.mem, a)
  }

  /** lr_svc after the exit: the one pushed, or what FreeRTOS_EndOfInterrupt left. */
  function LrBack(f: Frame, a: Machine, eoi: CReturn): Word {
    if f.WithLr? then a.lrSvc else eoi.lr
  }

  /** Popping both frames recovers the interrupted registers. */
  lemma PopsFrame(c: Layout, a: Machine, b: Machine, eoi: CReturn)
    requires LevelMem(c, b.mem + eoi.writes, a) && a.spSvc >= 36 && a.spIrq >= 8
    requires b.spSvc == FrameBase(c.frame, a.spSvc) && b.spIrq == a.spIrq - 8 && b.r[5..12] == a.r[5..12]
    ensures var u := FramesPopped(c.frame, Finished(b, eoi));
            && u.r == a.r && u.lrSvc == LrBack(c.frame, a, eoi) && u.spSvc == a.spSvc && u.spIrq == a.spIrq
            && u.lrIrq == a.pc && u.spsrIrq == a.cpsr
            && u == b.(r := u.r, lrSvc := u.lrSvc, spSvc := u.spSvc, spIrq := u.spIrq, lrIrq := u.lrIrq,
                       spsrIrq := u.spsrIrq, cpsr := u.cpsr, mem := b.mem + eoi.writes,
                       fp := ClobberedFp(b.fp, eoi), fpscr := eoi.fpscr,
                       nesting := Sub32(b.nesting, 1), epi := u.epi)
            && u.epi[6] == b.epi[6] && u.epi[0] == b.spSvc && u.epi[1] == Padding(Sub32(a.spSvc, c.frame.Bytes()))
  {
    BaseBelow(c.frame, a.spSvc);
    a.cpsr.StatusRoundTrip();
    var f := Finished(b, eoi);
    assert f.spSvc == a.spSvc - c.frame.Bytes();
    assert f.r[5..12] == b.r[5..12];
    var w := Rds(f.mem, f.spSvc, c.frame.Bytes() / 4);
    assert w[..5] == a.r[..5] && w[5] == a.r[12] && (c.frame.WithLr? ==> w[6] == a.lrSvc);
    assert a.r == a.r[..5] + a.r[5..12] + [a.r[12]];
  }

  /** The stores made around the exit spare every stored frame and every suspended task. */
  lemma ExitMem(c: Layout, s: Sys, b: Machine, mem: Mem)
    requires Inv(c, s) && |s.lv| > 0 && |b.tops| == |c.hi|
    requires b == s.m.(r := b.r, spSvc := b.spSvc, lrSvc := b.lrSvc, cpsr := b.cpsr, fp := b.fp, fpscr := b.fpscr)
    requires b.spSvc == s.lv[|s.lv| - 1].Base(c.frame) && Keeps(c, b, b.spSvc, mem)
    ensures forall i :: 0 <= i < |s.lv| ==> LevelMem(c, mem, s.lv[i].at)
    ensures forall t :: 0 <= t < |s.m.tops| && t != s.m.cur ==> Agree(mem, s.m.mem, s.m.tops[t], c.hi[t])
  {
    ReturnKeeps(c, s, b, mem);
    LevelsMemKept(c, s, b.spSvc, mem);
    forall t | 0 <= t < |s.m.tops| && t != s.m.cur ensures Agree(mem, s.m.mem, s.m.tops[t], c.hi[t]) {
      assert LiveLo(s.m, t) == s.m.tops[t];
    }
  }

  /** What the invariant says about the innermost level. */
  lemma TopLevel(c: Layout, s: Sys)
    requires Inv(c, s) && |s.lv| > 0
    ensures var l := s.lv[|s.lv| - 1];
            && Frozen(s.m, l.at) && l.at.spSvc >= 36 && s.m.spIrq == l.at.spIrq - 8
            && s.m.nesting == l.at.nesting + 1 && l.at.nesting == |s.lv| - 1
            && (l.tail ==> s.m.pointer == l.at.pointer) && s.m.epi[6] == 0
            && LevelShape(c, s.lv, |s.lv| - 1)
  {
    assert LevelShape(c, s.lv, |s.lv| - 1);
  }

  lemma ExitSpares(c: Layout, s: Sys, s': Sys, ret: CReturn, eoi: CReturn, sched: CReturn, next: nat)
    requires Inv(c, s) && ExitStep(c, s, s', ret, eoi, sched, next)
    ensures forall i :: 0 <= i < |s.lv| ==> LevelMem(c, s.m.mem + eoi.writes, s.lv[i].at)
    ensures forall t :: 0 <= t < |s.m.tops| && t != s.m.cur ==>
              Agree(s.m.mem + eoi.writes, s.m.mem, s.m.tops[t], c.hi[t])
  {
    ExitMem(c, s, AtReturn(c.frame, s.m, s.lv[|s.lv| - 1], ret), s.m.mem + eoi.writes);
  }

  /** Both exit paths start by recovering the interrupted context of the innermost level. */
  lemma ExitRecovers(c: Layout, s: Sys, s': Sys, ret: CReturn, eoi: CReturn, sched: CReturn, next: nat)
    requires Inv(c, s) && ExitStep(c, s, s', ret, eoi, sched, next)
    ensures var k := |s.lv| - 1; var a := s.lv[k].at;
            var u := FramesPopped(c.frame, Finished(AtReturn(c.frame, s.m, s.lv[k], ret), eoi));
            && Recovered(u, s.m, FpLeft(a, eoi), LrBack(c.frame, a, eoi))
            && u.mem == s.m.mem + eoi.writes && u.epi[6] == 0
            && u.epi[0] == s.lv[k].Base(c.frame) && u.epi[1] == Padding(Sub32(a.spSvc, c.frame.Bytes()))
            && LevelMem(c, u.mem, FpLeft(a, eoi))
    ensures Switches(AtReturn(c.frame, s.m, s.lv[|s.lv| - 1], ret)) == (|s.lv| == 1 && s.m.yieldRequired != 0)
  {
    ExitSpares(c, s, s', ret, eoi, sched, next);
    assert LevelMem(c, s.m.mem + eoi.writes, s.lv[|s.lv| - 1].at);
    TopLevel(c, s);
    Recovers(c, s.m, s.lv[|s.lv| - 1], ret, eoi);
    LevelMemIgnoresFp(c, s.m.mem + eoi.writes, s.lv[|s.lv| - 1].at, eoi);
  }

  lemma LevelMemIgnoresFp(c: Layout, mem: Mem, a: Machine, eoi: CReturn)
    requires LevelMem(c, mem, a)
    ensures LevelMem(c, mem, FpLeft(a, eoi))
  {
  }

  /** u is the interrupted machine a in IRQ mode with the return state in LR_irq and SPSR_irq. */
  ghost predicate Recovered(u: Machine, m: Machine, a: Machine, lr: Word) {
    u == a.(lrSvc := lr, mem := u.mem, lrIrq := a.pc, spsrIrq := a.cpsr, yieldRequired := m.yieldRequired,
            ids := m.ids, epi := u.epi, pc := u.pc, cpsr := u.cpsr)
  }

  lemma Recovers(c: Layout, m: Machine, l: Level, ret: CReturn, eoi: CReturn)
    requires LevelMem(c, m.mem + eoi.writes, l.at) && Frozen(m, l.at) && l.at.spSvc >= 36
    requires m.spIrq == l.at.spIrq - 8 && m.nesting == l.at.nesting + 1 && m.pointer == l.at.pointer
    ensures var a := l.at;
            var u := FramesPopped(c.frame, Finished(AtReturn(c.frame, m, l, ret), eoi));
            && Recovered(u, m, FpLeft(a, eoi), LrBack(c.frame, a, eoi))
            && u.mem == m.mem + eoi.writes && u.epi[6] == m.epi[6]
            && u.epi[0] == l.Base(c.frame) && u.epi[1] == Padding(Sub32(a.spSvc, c.frame.Bytes()))
  {
    PopsFrame(c, l.at, AtReturn(c.frame, m, l, ret), eoi);
  }

  lemma ReturnKeeps(c: Layout, s: Sys, b: Machine, mem: Mem)
    requires |s.m.tops| == |c.hi| && |b.tops| == |c.hi| && Keeps(c, b, b.spSvc, mem)
    requires b == s.m.(r := b.r, spSvc := b.spSvc, lrSvc := b.lrSvc, cpsr := b.cpsr, fp := b.fp, fpscr := b.fpscr)
    ensures Keeps(c, s.m, b.spSvc, mem)
  {
    forall t | 0 <= t < |s.m.tops| ensures Agree(mem, s.m.mem, LiveLo(s.m, t), c.hi[t]) {
      assert LiveLo(s.m, t) == LiveLo(b, t);
    }
  }

  /** An exit that does not switch puts the interrupted context back, at any depth, but for the
      floating-point registers, which are as FreeRTOS_EndOfInterrupt left them. */
  lemma ExitResumes(c: Layout, s: Sys, s': Sys, ret: CReturn, eoi: CReturn, sched: CReturn, next: nat)
    requires Inv(c, s) && ExitStep(c, s, s', ret, eoi, sched, next)
    requires |s.lv| > 1 || s.m.yieldRequired == 0
    ensures var a := s.lv[|s.lv| - 1].at; Back(c, s'.m, FpLeft(a, eoi), LrBack(c.frame, a, eoi))
    ensures s'.m.yieldRequired == s.m.yieldRequired
    ensures s'.m.ids == s.m.ids && s'.m.epi[6] == 0 && s'.m.mem == s.m.mem + eoi.writes
    ensures s'.lv == s.lv[..|s.lv| - 1] && s'.susp == s.susp
    ensures s'.asked == (if |s.lv| == 1 then false else s.asked)
  {
    ExitRecovers(c, s, s', ret, eoi, sched, next);
    var top := s.lv[|s.lv| - 1];
    var b, a := AtReturn(c.frame, s.m, top, ret), FpLeft(top.at, eoi);
    PlainPath(c, s.m, b, a, LrBack(c.frame, top.at, eoi), s'.m, eoi, sched, next);
  }

  lemma PlainPath(c: Layout, m: Machine, b: Machine, a: Machine, lr: Word, n: Machine,
          eoi: CReturn, sched: CReturn, next: nat)
    requires b.cur < |b.tops| && next < |b.tops| && !Switches(b)
    requires n == Exited(c.frame, c.fpu, b, eoi, sched, next)
    requires var u := FramesPopped(c.frame, Finished(b, eoi));
             Recovered(u, m, a, lr) && u.mem == m.mem + eoi.writes && u.epi[6] == 0 && LevelMem(c, u.mem, a)
    ensures Back(c, n, a, lr) && n.yieldRequired == m.yieldRequired
    ensures n.ids == m.ids && n.epi[6] == 0 && n.mem == m.mem + eoi.writes
  {
  }

  lemma ResumeKeepsInv(c: Layout, s: Sys, s': Sys, ret: CReturn, eoi: CReturn, sched: CReturn, next: nat)
    requires Inv(c, s) && ExitStep(c, s, s', ret, eoi, sched, next)
    requires |s.lv| > 1 || s.m.yieldRequired == 0
    ensures Inv(c, s')
  {
    ExitSpares(c, s, s', ret, eoi, sched, next);
    ExitResumes(c, s, s', ret, eoi, sched, next);
    PopKeepsInv(c, s, s');
  }

  ghost predicate BackButFp(c: Layout, n: Machine, a: Machine) {
    Back(c, n, a.(fp := n.fp, fpscr := n.fpscr), n.lrSvc)
  }

  lemma PopKeepsInv(c: Layout, s: Sys, s': Sys)
    requires Inv(c, s) && |s.lv| > 0 && (|s.lv| > 1 || s.m.yieldRequired == 0)
    requires BackButFp(c, s'.m, s.lv[|s.lv| - 1].at) && s'.m.yieldRequired == s.m.yieldRequired
    requires s'.m.ids == s.m.ids && s'.m.epi[6] == 0
    requires s'.lv == s.lv[..|s.lv| - 1] && s'.susp == s.susp
    requires s'.asked == (if |s.lv| == 1 then false else s.asked)
    requires forall i :: 0 <= i < |s.lv| ==> LevelMem(c, s'.m.mem, s.lv[i].at)
    requires forall t :: 0 <= t < |s.m.tops| && t != s.m.cur ==> Agree(s'.m.mem, s.m.mem, s.m.tops[t], c.hi[t])
    ensures Inv(c, s')
  {
    TopLevel(c, s);
    TasksKept(c, s.m, s'.m, s.susp);
    PopKeepsLevels(c, s, s');
    PopKeepsCore(c, s, s');
  }

  lemma PopKeepsLevels(c: Layout, s: Sys, s': Sys)
    requires Levels(c, s) && |s.lv| > 0 && s'.lv == s.lv[..|s.lv| - 1]
    requires s'.m.ids == s.m.ids
    requires forall i :: 0 <= i < |s'.lv| ==> LevelMem(c, s'.m.mem, s.lv[i].at)
    requires |s.lv| > 1 ==> Frozen(s'.m, s.m)
    ensures Levels(c, s')
  {
    forall i | 0 <= i < |s'.lv|
      ensures LevelShape(c, s'.lv, i) && LevelMem(c, s'.m.mem, s'.lv[i].at) && Frozen(s'.m, s'.lv[i].at)
    {
      assert LevelShape(c, s.lv, i) && Frozen(s.m, s.lv[i].at);
      assert s'.lv[i] == s.lv[i];
    }
  }

  lemma PopKeepsCore(c: Layout, s: Sys, s': Sys)
    requires Core(c, s) && |s.lv| > 0 && s'.lv == s.lv[..|s.lv| - 1]
    requires LevelShape(c, s.lv, |s.lv| - 1) && Frozen(s.m, s.lv[|s.lv| - 1].at)
    requires |s.lv| > 1 ==> LevelShape(c, s.lv, |s.lv| - 2)
    requires BackButFp(c, s'.m, s.lv[|s.lv| - 1].at) && s'.m.yieldRequired == s.m.yieldRequired && s'.m.epi[6] == 0
    requires |s.lv| > 1 || s.m.yieldRequired == 0
    requires s'.asked == (if |s.lv| == 1 then false else s.asked)
    ensures Core(c, s')
  {
    if |s.lv| > 1 {
      assert s'.lv[|s.lv| - 2] == s.lv[|s.lv| - 2];
    }
  }

  // ---- switching tasks ---------------------------------------------------------------

  /** n runs the task that was suspended as y: registers, return state, critical nesting,
      floating-point state when it has any, and live stack words are those of y. */
  ghost predicate Continues(c: Layout, n: Machine, y: Machine)
    requires n.cur < |c.hi|
  {
    && n.r == y.r && n.pc == y.pc && n.cpsr == y.cpsr && n.spSys == y.spSys && n.lrSys == y.lrSys
    && n.critical == y.critical
    && (c.fpu ==> n.hasFpu == y.hasFpu && (y.hasFpu != 0 ==> n.fp == y.fp && n.fpscr == y.fpscr))
    && Agree(n.mem, y.mem, y.spSys, c.hi[n.cur])
  }

  /** m is about to be suspended as x. */
  ghost predicate Suspends(c: Layout, m: Machine, x: Machine)
    requires m.cur < |c.hi|
  {
    && x.cpsr.mode == SYS_MODE && m.r == x.r && m.spSys == x.spSys && m.lrSys == x.lrSys
    && m.critical == x.critical && m.hasFpu == x.hasFpu && m.fp == x.fp && m.fpscr == x.fpscr
    && m.spSys <= c.hi[m.cur] && Agree(m.mem, x.mem, x.spSys, c.hi[m.cur])
  }

  /** After portSAVE_CONTEXT and vTaskSwitchContext, every task, the old one included, is parked. */
  lemma SaveParks(c: Layout, m: Machine, x: Machine, susp: map<nat, Machine>, sched: CReturn, next: nat)
    requires c.Valid() && |m.tops| == |c.hi| && m.cur < |m.tops|
    requires Tasks(c, m, susp) && Suspends(c, m, x) && Schedules(c, m, x.pc, x.cpsr, sched, next)
    ensures var saved := Saved(c.fpu, m, x.pc, x.cpsr);
            var w := Selected(saved, sched, next);
            var susp' := susp[m.cur := x];
            forall t :: 0 <= t < |w.tops| ==> t in susp' && Parked(c, w, t, susp'[t])
  {
    var susp' := susp[m.cur := x];
    var saved := Saved(c.fpu, m, x.pc, x.cpsr);
    var w := Selected(saved, sched, next);
    SavedIsParked(c, m, x);
    forall t | 0 <= t < |w.tops| ensures t in susp' && Parked(c, w, t, susp'[t]) {
      if t != m.cur {
        assert Parked(c, m, t, susp[t]);
        OtherParked(c, m, saved, t, susp[t]);
      }
      StaysParked(c, saved, w, t, susp'[t]);
    }
  }

  /** Saving parks the running task and stores nowhere but on its stack. */
  lemma SavedIsParked(c: Layout, m: Machine, x: Machine)
    requires |m.tops| == |c.hi| == |c.lo| && m.cur < |m.tops| && Suspends(c, m, x)
    requires m.spSys - FrameSize(c.fpu, m.hasFpu) >= c.lo[m.cur]
    ensures var saved := Saved(c.fpu, m, x.pc, x.cpsr);
            && |saved.tops| == |m.tops| && Parked(c, saved, m.cur, x)
            && (forall t :: 0 <= t < |m.tops| && t != m.cur ==> saved.tops[t] == m.tops[t])
            && (forall a :: !(c.lo[m.cur] <= a < c.hi[m.cur]) ==> Rd(saved.mem, a) == Rd(m.mem, a))
  {
    SaveBuildsFrame(c.fpu, m, x.pc, x.cpsr);
    assert TaskFrame(c.fpu, m, x.pc, x.cpsr) == TaskFrame(c.fpu, x, x.pc, x.cpsr);
  }

  lemma StaysParked(c: Layout, saved: Machine, w: Machine, t: nat, x: Machine)
    requires t < |saved.tops| == |w.tops| == |c.hi| == |c.lo| && Parked(c, saved, t, x) && w.tops == saved.tops
    requires forall u :: 0 <= u < |saved.tops| ==> Agree(w.mem, saved.mem, saved.tops[u], c.hi[u])
    ensures Parked(c, w, t, x)
  {
    ParkedKept(c, saved, w, t, x);
  }

  /** Saving the running task's context does not reach another task's stack. */
  lemma OtherParked(c: Layout, m: Machine, saved: Machine, t: nat, x: Machine)
    requires c.Valid() && |m.tops| == |saved.tops| == |c.hi| && m.cur < |m.tops| && t < |m.tops| && t != m.cur
    requires Parked(c, m, t, x) && saved.tops[t] == m.tops[t]
    requires forall a :: !(c.lo[m.cur] <= a < c.hi[m.cur]) ==> Rd(saved.mem, a) == Rd(m.mem, a)
    ensures Parked(c, saved, t, x)
  {
    assert Apart(c.lo[t], c.hi[t], c.lo[m.cur], c.hi[m.cur]);
    ParkedKept(c, m, saved, t, x);
  }

  /** A switch suspends m as x, resumes the chosen task exactly as it was suspended, and touches
      neither the SVC nor the IRQ side of the machine. */
  lemma SwitchResumes(c: Layout, m: Machine, x: Machine, susp: map<nat, Machine>, sched: CReturn, next: nat)
    requires c.Valid() && |m.tops| == |c.hi| && m.cur < |m.tops|
    requires Tasks(c, m, susp) && Suspends(c, m, x) && Schedules(c, m, x.pc, x.cpsr, sched, next)
    ensures var n := Switched(c.fpu, m, x.pc, x.cpsr, sched, next);
            var susp' := susp[m.cur := x];
            && |n.tops| == |c.hi| && n.cur == next && next in susp'
            && Continues(c, n, susp'[next]) && Tasks(c, n, susp')
            && n.cpsr.mode == SYS_MODE && c.lo[next] <= n.spSys <= c.hi[next]
            && n == m.(r := n.r, pc := n.pc, cpsr := n.cpsr, spSys := n.spSys, lrSys := n.lrSys,
                       fp := n.fp, fpscr := n.fpscr, critical := n.critical, hasFpu := n.hasFpu,
                       mem := n.mem, tops := n.tops, cur := n.cur)
  {
    var saved := Saved(c.fpu, m, x.pc, x.cpsr);
    var w := Selected(saved, sched, next);
    var susp' := susp[m.cur := x];
    SaveParks(c, m, x, susp, sched, next);
    assert Parked(c, w, next, susp'[next]);
    RestoreReadsFrame(c.fpu, w, susp'[next]);
    var n := Switched(c.fpu, m, x.pc, x.cpsr, sched, next);
    assert n == Resumed(c.fpu, w, susp'[next]);
    SavedFields(c.fpu, m, x.pc, x.cpsr);
    forall t | 0 <= t < |n.tops| && t != n.cur ensures Parked(c, n, t, susp'[t]) {
      ParkedKept(c, w, n, t, susp'[t]);
    }
  }

  lemma SavedFields(fpu: bool, m: Machine, ret: Word, psr: Psr)
    requires m.cur < |m.tops|
    ensures var s := Saved(fpu, m, ret, psr); s == m.(spSys := s.spSys, mem := s.mem, tops := s.tops)
  {
  }

  /** The outermost exit with a request: the interrupted task is suspended as it was when the
      interrupt came, with the floating-point registers FreeRTOS_EndOfInterrupt left; the
      chosen task continues, and the request is used up. */
  lemma ExitSwitches(c: Layout, s: Sys, s': Sys, ret: CReturn, eoi: CReturn, sched: CReturn, next: nat)
    requires Inv(c, s) && ExitStep(c, s, s', ret, eoi, sched, next)
    requires |s.lv| == 1 && s.m.yieldRequired != 0
    ensures s'.susp == s.susp[s.m.cur := FpLeft(s.lv[0].at, eoi)] && s'.m.cur == next && next in s'.susp
    ensures |s'.m.tops| == |c.hi| && Continues(c, s'.m, s'.susp[next]) && Tasks(c, s'.m, s'.susp)
    ensures s'.m.yieldRequired == 0 && s'.m.sw[0] == Add32(s.m.sw[0], 1)
    ensures Core(c, s')
  {
    var a := FpLeft(s.lv[0].at, eoi);
    var f := Finished(AtReturn(c.frame, s.m, s.lv[0], ret), eoi);
    ExitSuspends(c, s, s', ret, eoi, sched, next);
    SwitchResumes(c, FramesPopped(c.frame, f).(yieldRequired := 0, sw := Counted(f, 0)), a, s.susp, sched, next);
  }

  lemma ExitSuspends(c: Layout, s: Sys, s': Sys, ret: CReturn, eoi: CReturn, sched: CReturn, next: nat)
    requires Inv(c, s) && ExitStep(c, s, s', ret, eoi, sched, next)
    requires |s.lv| == 1 && s.m.yieldRequired != 0
    ensures var a := FpLeft(s.lv[0].at, eoi);
            var f := Finished(AtReturn(c.frame, s.m, s.lv[0], ret), eoi);
            var v := FramesPopped(c.frame, f).(yieldRequired := 0, sw := Counted(f, 0));
            && |v.tops| == |c.hi| && v.cur == s.m.cur && v.cur < |c.hi|
            && Tasks(c, v, s.susp) && Suspends(c, v, a) && Schedules(c, v, a.pc, a.cpsr, sched, next)
            && s'.m == Switched(c.fpu, v, a.pc, a.cpsr, sched, next)
            && v.nesting == 0 && v.pointer == 0 && v.spIrq == c.irqTop && v.spSvc == c.svcTop
            && v.epi[6] == 0 && v.sw[0] == Add32(s.m.sw[0], 1) && v.sw[1] == 0 && v.sw[3] == 0
            && v.yieldRequired == 0
  {
    ExitSpares(c, s, s', ret, eoi, sched, next);
    ExitRecovers(c, s, s', ret, eoi, sched, next);
    TopLevel(c, s);
    var a := FpLeft(s.lv[0].at, eoi);
    var b := AtReturn(c.frame, s.m, s.lv[0], ret);
    var f := Finished(b, eoi);
    var u := FramesPopped(c.frame, f);
    var v := u.(yieldRequired := 0, sw := Counted(f, 0));
    SwitchPath(c, s.m, b, a, eoi);
    TasksKept(c, s.m, v, s.susp);
    SchedulesSame(c, u, v, a, sched, next);
  }

  lemma SwitchPath(c: Layout, m: Machine, b: Machine, a: Machine, eoi: CReturn)
    requires a.cur < |c.hi| && a.spSys <= c.hi[a.cur] && a.cpsr.mode == SYS_MODE && a.nesting == 0
    requires b.sw == m.sw == a.sw && b.nesting == 1
    requires var u := FramesPopped(c.frame, Finished(b, eoi));
             Recovered(u, m, a, u.lrSvc) && u.mem == m.mem + eoi.writes && u.epi[6] == 0 && LevelMem(c, u.mem, a)
    ensures var f := Finished(b, eoi);
            var v := FramesPopped(c.frame, f).(yieldRequired := 0, sw := Counted(f, 0));
            && v.cur == a.cur && Suspends(c, v, a) && v.tops == a.tops && v.mem == m.mem + eoi.writes
            && v.nesting == 0 && v.pointer == a.pointer && v.spIrq == a.spIrq && v.spSvc == a.spSvc
            && v.epi[6] == 0 && v.sw[0] == Add32(m.sw[0], 1) && v.sw[1] == m.sw[1] && v.sw[3] == m.sw[3]
  {
  }

  lemma SchedulesSame(c: Layout, u: Machine, v: Machine, x: Machine, sched: CReturn, next: nat)
    requires |u.tops| == |c.hi| == |c.lo| && u.cur < |u.tops|
    requires v == u.(yieldRequired := v.yieldRequired, sw := v.sw, lrSvc := v.lrSvc, spsrSvc := v.spsrSvc)
    requires Schedules(c, u, x.pc, x.cpsr, sched, next)
    ensures Schedules(c, v, x.pc, x.cpsr, sched, next)
  {
    var p, q := Saved(c.fpu, u, x.pc, x.cpsr), Saved(c.fpu, v, x.pc, x.cpsr);
    assert p.mem == q.mem && p.tops == q.tops;
  }

  lemma ExitKeepsInv(c: Layout, s: Sys, s': Sys, ret: CReturn, eoi: CReturn, sched: CReturn, next: nat)
    requires Inv(c, s) && ExitStep(c, s, s', ret, eoi, sched, next)
    ensures Inv(c, s')
  {
    if |s.lv| > 1 || s.m.yieldRequired == 0 {
      ResumeKeepsInv(c, s, s', ret, eoi, sched, next);
    } else {
      ExitSwitches(c, s, s', ret, eoi, sched, next);
    }
  }

  /** SVC: the running task is suspended as it stands, the chosen task continues. */
  lemma SvcSwitches(c: Layout, s: Sys, s': Sys, ret: Word, sched: CReturn, next: nat)
    requires Inv(c, s) && SvcStep(c, s, s', ret, sched, next)
    ensures s'.m.cur == next && next in s'.susp && |s'.m.tops| == |c.hi|
    ensures Continues(c, s'.m, s'.susp[next]) && Inv(c, s')
  {
    var x := s.m.(pc := ret);
    var v := s.m.(lrSvc := ret, spsrSvc := s.m.cpsr, sw := Counted(s.m, 2));
    TasksKept(c, s.m, v, s.susp);
    SchedulesSame(c, s.m, v, x, sched, next);
    SwitchResumes(c, v, x, s.susp, sched, next);
  }
}
