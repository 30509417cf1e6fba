/** Runs built step by step: what a reader needs to see that something can happen, in every
    system that boots. */
module RunBuilding {
  import opened Arm
  import opened PortAsm
  import opened BspIrq
  import opened Runs
  import opened Invariant
  import opened RunTheorems

  lemma BootedRun(c: Layout, m: Machine, starts: seq<Start>, s: Sys)
    requires Boots(c, m, starts, s)
    ensures Run(c, [s], []) && s.lv == [] && !s.m.cpsr.irqOff && s.m.spIrq == c.irqTop && s.m.spSvc == c.svcTop
  {
    BootKeepsInv(c, m, starts, s);
    assert Booted(c, [s][0]);
  }

  /** A C function called in m that returns id and stores nothing, changes no other register
      that matters, and leaves lr at its return address as leaf functions do. */
  function Leaf(m: Machine, id: Word, lr: Word): CReturn {
    CReturn(id, 0, 0, 0, 0, lr, 0, m.fp[..16], m.fpscr, map[])
  }

  lemma NoWrites(mem: Mem)
    ensures mem + map[] == mem
  {
  }

  lemma RunExtends(c: Layout, ss: seq<Sys>, es: seq<Event>, s: Sys, e: Event)
    requires Run(c, ss, es) && Next(c, ss[|es|], s, e)
    ensures Run(c, ss + [s], es + [e])
  {
    assert (ss + [s])[0] == ss[0];
    forall i | 0 <= i < |es| + 1 ensures StepAt(c, ss + [s], es + [e], i) {
      if i < |es| {
        assert StepAt(c, ss, es, i);
      }
    }
  }

  /** (tt, fs) is (ss, es) with one more step. */
  ghost predicate Extends(tt: seq<Sys>, fs: seq<Event>, ss: seq<Sys>, es: seq<Event>) {
    && |tt| == |ss| + 1 && |fs| == |es| + 1
    && (forall k :: 0 <= k < |ss| ==> tt[k] == ss[k]) && (forall k :: 0 <= k < |es| ==> fs[k] == es[k])
  }

  lemma RunSizes(c: Layout, ss: seq<Sys>, es: seq<Event>)
    requires Run(c, ss, es)
    ensures var s := ss[|es|]; |s.m.tops| == |c.hi| == |c.lo| && s.m.cur < |c.hi| && Core(c, s)
  {
    RunKeepsInv(c, ss, es, |es|);
  }

  /** An interrupt with id 5, taken now. */
  function Taken5(c: Layout, s: Sys, prio: int): Sys {
    s.(m := Opened(Entered(c.frame, s.m, Leaf(s.m, 5, 0), c.sym), 5, c.idBase),
       lv := s.lv + [Level(s.m, 5, 5, prio, false)])
  }

  lemma TakesStep(c: Layout, s: Sys, prio: int)
    requires |s.m.tops| == |c.hi| == |c.lo| && !s.m.cpsr.irqOff && s.m.spIrq - 8 >= c.irqLo && s.m.spSvc - 36 >= c.svcLo
    requires IsPriority(prio) && forall i :: 0 <= i < |s.lv| ==> prio < s.lv[i].prio
    ensures Next(c, s, Taken5(c, s, prio), Irq(Leaf(s.m, 5, 0), prio))
  {
    NoWrites(EntryMem(c.frame, s.m));
  }

  lemma TakesInterrupt(c: Layout, ss: seq<Sys>, es: seq<Event>, prio: int) returns (tt: seq<Sys>, fs: seq<Event>)
    requires Run(c, ss, es) && !ss[|es|].m.cpsr.irqOff
    requires ss[|es|].m.spIrq - 8 >= c.irqLo && ss[|es|].m.spSvc - 36 >= c.svcLo
    requires IsPriority(prio) && forall i :: 0 <= i < |ss[|es|].lv| ==> prio < ss[|es|].lv[i].prio
    ensures Run(c, tt, fs) && Extends(tt, fs, ss, es) && fs[|es|] == Irq(Leaf(ss[|es|].m, 5, 0), prio)
    ensures var s, t := ss[|es|], tt[|fs|];
            && t.lv == s.lv + [Level(s.m, 5, 5, prio, false)] && t.m.lrSvc == c.sym.afterAppHandler && !t.m.cpsr.irqOff
            && t.m.spIrq == s.m.spIrq - 8 && t.m.spSvc >= s.m.spSvc - 36
            && t.m.fp == s.m.fp && t.m.fpscr == s.m.fpscr && t.m.yieldRequired == s.m.yieldRequired
  {
    var s := ss[|es|];
    RunSizes(c, ss, es);
    TakesStep(c, s, prio);
    BaseBelow(c.frame, s.m.spSvc);
    KeptFp(s.m, Leaf(s.m, 5, 0));
    var t, e := Taken5(c, s, prio), Irq(Leaf(s.m, 5, 0), prio);
    RunExtends(c, ss, es, t, e);
    tt, fs := ss + [t], es + [e];
  }

  lemma HandlerDone(c: Layout, ss: seq<Sys>, es: seq<Event>) returns (tt: seq<Sys>, fs: seq<Event>)
    requires Run(c, ss, es) && |ss[|es|].lv| > 0 && !ss[|es|].lv[|ss[|es|].lv| - 1].tail
    ensures Run(c, tt, fs) && Extends(tt, fs, ss, es) && fs[|es|].Done?
    ensures var s, t := ss[|es|], tt[|fs|];
            && |t.lv| == |s.lv| && t.lv[|t.lv| - 1].tail
            && t.m.fp == s.m.fp && t.m.fpscr == s.m.fpscr && t.m.yieldRequired == s.m.yieldRequired
  {
    var s := ss[|es|];
    var k := |s.lv| - 1;
    RunSizes(c, ss, es);
    var t := s.(m := Closed(s.m), lv := s.lv[k := s.lv[k].(tail := true)]);
    assert DoneStep(s, t);
    RunExtends(c, ss, es, t, Done);
    tt, fs := ss + [t], es + [Done];
  }

  /** The innermost interrupt leaves without a switch; FreeRTOS_EndOfInterrupt was a leaf function. */
  ghost function Left(c: Layout, s: Sys): Sys
    requires |s.lv| > 0 && s.m.cur < |s.m.tops|
  {
    var k := |s.lv| - 1;
    var b := AtReturn(c.frame, s.m, s.lv[k], Leaf(s.m, 0, c.sym.afterAppHandler));
    s.(m := Exited(c.frame, c.fpu, b, Leaf(s.m, 0, c.sym.afterEoi), Leaf(s.m, 0, 0), s.m.cur),
       lv := s.lv[..k], asked := k > 0 && s.asked)
  }

  ghost function LeaveEvent(c: Layout, s: Sys): Event {
    Event.Exit(Leaf(s.m, 0, c.sym.afterAppHandler), Leaf(s.m, 0, c.sym.afterEoi), Leaf(s.m, 0, 0), s.m.cur)
  }

  lemma LeavesStep(c: Layout, s: Sys)
    requires Core(c, s) && |s.m.tops| == |c.hi| == |c.lo| && |s.lv| > 0 && s.lv[|s.lv| - 1].tail
    requires s.m.mem + map[] == s.m.mem
    requires |s.lv| > 1 || s.m.yieldRequired == 0
    ensures Next(c, s, Left(c, s), LeaveEvent(c, s))
  {
  }

  lemma Leaves(c: Layout, ss: seq<Sys>, es: seq<Event>) returns (tt: seq<Sys>, fs: seq<Event>)
    requires Run(c, ss, es) && |ss[|es|].lv| > 0 && ss[|es|].lv[|ss[|es|].lv| - 1].tail
    requires |ss[|es|].lv| > 1 || ss[|es|].m.yieldRequired == 0
    ensures Run(c, tt, fs) && Extends(tt, fs, ss, es) && fs[|es|] == LeaveEvent(c, ss[|es|])
    ensures |tt[|fs|].lv| == |ss[|es|].lv| - 1
  {
    var s := ss[|es|];
    RunSizes(c, ss, es);
    NoWrites(s.m.mem);
    LeavesStep(c, s);
    RunExtends(c, ss, es, Left(c, s), LeaveEvent(c, s));
    tt, fs := ss + [Left(c, s)], es + [LeaveEvent(c, s)];
  }
}
