/** The doorbell between the interrupt thread (rz_proc_irq_handler) and the poller
    (platform_poll): a one-bit doorbell, a coalescing flag, a condition variable whose signal can
    be missed, and a timed wait of one millisecond. */
module Doorbell {
  import RzRproc

  // ---- the clock ---------------------------------------------------------------------

  const BILLION: nat := 1_000_000_000
  const WAIT_NS: nat := 1_000_000

  datatype Timespec = Timespec(sec: nat, nsec: nat)

  function Clock(ns: nat): Timespec {
    Timespec(ns / BILLION, ns % BILLION)
  }

  function Nanos(t: Timespec): nat {
    t.sec * BILLION + t.nsec
  }

  /** The absolute timeout platform_poll computes. */
  function Deadline(t: Timespec): Timespec {
    var n := t.nsec + WAIT_NS;
    if n >= BILLION then Timespec(t.sec + 1, n - BILLION) else Timespec(t.sec, n)
  }

  lemma DeadlineIsOneMillisecondOn(now: nat)
    ensures Nanos(Deadline(Clock(now))) == now + WAIT_NS && Deadline(Clock(now)).nsec < BILLION
    ensures var t, d := Clock(now), Deadline(Clock(now));
            && t.sec * 1_000_000_000 + t.nsec == now && t.nsec < 1_000_000_000
            && d.sec * 1_000_000_000 + d.nsec == now + 1_000_000 && d.nsec < 1_000_000_000
  {
  }

  // ---- state -------------------------------------------------------------------------

  /** Where the poller stands: outside platform_poll, at the loop test, past the test and about
      to lock the mutex, in the timed wait, about to drain, draining.  `timed` marks the drain
      made after ETIMEDOUT. */
  datatype Pc =
    | Outside
    | Loop
    | Sleep
    | Waiting(deadline: nat, woken: bool)
    | Ready(timed: bool)
    | Draining(upTo: nat, timed: bool)

  datatype Isr = Idle | Raise | Signal

  /** `posted` counts messages in the ring, `drained` those collected, `raised` is the cleared
      atomic_flag.  History: `announced` is what was posted when the flag was last raised,
      `slept` the time spent in timed waits before a signal came. */
  datatype Sys = Sys(
    posted: nat, bell: bool, isr: Isr, raised: bool, pc: Pc, drained: nat, stop: bool, now: nat,
    announced: nat, slept: nat)

  datatype Event =
    | Post | Ring | Service(id: nat) | Flag | Notify | Stop | Tick(d: nat)
    | Call | Test | Wait | Wake(timeout: bool) | Start | End(upTo: nat)

  /** Steps the poller makes itself. */
  predicate IsPoller(e: Event) {
    e.Call? || e.Test? || e.Wait? || e.Wake? || e.Start? || e.End?
  }

  ghost predicate Next(s: Sys, s': Sys, e: Event) {
    match e
    case Post => s' == s.(posted := s.posted + 1)
    case Ring => s' == s.(bell := true)
    case Service(id) =>
      s.bell && s.isr == Idle && s' == s.(bell := false, isr := if id < RzRproc.MAX_IDS then Raise else Idle)
    case Flag => s.isr == Raise && s' == s.(raised := true, announced := s.posted, isr := Signal)
    case Notify => s.isr == Signal && s' == s.(isr := Idle, pc := if s.pc.Waiting? then s.pc.(woken := true) else s.pc)
    case Stop => s' == s.(stop := true)
    case Tick(d) =>
      && (s.pc.Waiting? && !s.pc.woken ==> s.now + d <= s.pc.deadline)
      && s' == s.(now := s.now + d, slept := if s.pc.Waiting? && !s.pc.woken then s.slept + d else s.slept)
    case Call => s.pc == Outside && s' == s.(pc := Loop)
    case Test => s.pc == Loop && s' == Tested(s)
    case Wait => s.pc == Sleep && s' == s.(pc := Waiting(Nanos(Deadline(Clock(s.now))), false))
    case Wake(timeout) =>
      && s.pc.Waiting? && (timeout ==> s.now >= s.pc.deadline)
      && s' == s.(pc := if timeout then Ready(true) else Loop)
    case Start => s.pc.Ready? && s' == s.(pc := Draining(s.posted, s.pc.timed))
    case End(upTo) =>
      && s.pc.Draining? && s.pc.upTo <= upTo <= s.posted
      && s' == s.(pc := if s.pc.timed then Loop else Outside, drained := if upTo > s.drained then upTo else s.drained)
  }

  /** while(!force_stop) and atomic_flag_test_and_set. */
  ghost function Tested(s: Sys): Sys {
    if s.stop then s.(pc := Outside)
    else if s.raised then s.(raised := false, pc := Ready(false))
    else s.(pc := Sleep)
  }

  /** rz_proc_init leaves the flag set, that is, not raised. */
  ghost predicate Run(ss: seq<Sys>, es: seq<Event>) {
    && |ss| == |es| + 1
    && ss[0].pc == Outside && ss[0].isr == Idle && !ss[0].raised
    && ss[0].announced == 0 && ss[0].drained <= ss[0].posted
    && forall i :: 0 <= i < |es| ==> StepAt(ss, es, i)
  }

  ghost predicate StepAt(ss: seq<Sys>, es: seq<Event>, i: nat)
    requires |ss| == |es| + 1 && i < |es|
  {
    Next(ss[i], ss[i + 1], es[i])
  }

  // ---- safety ------------------------------------------------------------------------

  /** Message number n has been collected, or the poller cannot fall asleep without noticing it. */
  ghost predicate Noticed(s: Sys, n: nat) {
    n <= s.drained || s.raised || s.pc.Ready? || (s.pc.Draining? && n <= s.pc.upTo)
  }

  ghost predicate Inv(s: Sys) {
    && s.drained <= s.posted && s.announced <= s.posted
    && (s.pc.Draining? ==> s.pc.upTo <= s.posted)
    && (s.pc.Waiting? && !s.pc.woken ==> s.now <= s.pc.deadline <= s.now + WAIT_NS)
    && Noticed(s, s.announced)
  }

  lemma StepKeepsInv(s: Sys, s': Sys, e: Event)
    requires Inv(s) && Next(s, s', e)
    ensures Inv(s') && s'.drained >= s.drained && s'.posted >= s.posted && s'.announced >= s.announced
    ensures s.stop ==> s'.stop
  {
    DeadlineIsOneMillisecondOn(s.now);
  }

  /** NO SERVICED DOORBELL IS LOST.  In every state of every interleaving, all messages posted
      before the flag was last raised are collected, or the flag is still raised, or the drain
      that will collect them is about to start or under way. */
  lemma {:induction false} NoDoorbellLost(ss: seq<Sys>, es: seq<Event>, i: nat)
    requires Run(ss, es) && i < |ss|
    ensures Inv(ss[i]) && Noticed(ss[i], ss[i].announced)
  {
    if i > 0 {
      NoDoorbellLost(ss, es, i - 1);
      assert StepAt(ss, es, i - 1);
      StepKeepsInv(ss[i - 1], ss[i], es[i - 1]);
    }
  }

  /** A drain collects everything posted before it started, announced or not. */
  lemma {:induction false} DrainCovers(ss: seq<Sys>, es: seq<Event>, i: nat, k: nat, j: nat)
    requires Run(ss, es) && i <= k < j < |ss| && es[k].Start?
    requires forall m :: k < m < j ==> ss[m].pc.Draining?
    ensures ss[j].pc.Draining? ==> ss[j].pc.upTo >= ss[i].posted
    ensures !ss[j].pc.Draining? ==> ss[j].drained >= ss[i].posted
    decreases j
  {
    assert StepAt(ss, es, j - 1);
    if j == k + 1 {
      PostedGrows(ss, es, i, k);
    } else {
      DrainCovers(ss, es, i, k, j - 1);
    }
  }

  lemma {:induction false} PostedGrows(ss: seq<Sys>, es: seq<Event>, i: nat, j: nat)
    requires Run(ss, es) && i <= j < |ss|
    ensures ss[i].posted <= ss[j].posted && ss[i].announced <= ss[j].announced && ss[i].drained <= ss[j].drained
    ensures ss[i].stop ==> ss[j].stop
    decreases j
  {
    if i < j {
      PostedGrows(ss, es, i, j - 1);
      NoDoorbellLost(ss, es, j - 1);
      assert StepAt(ss, es, j - 1);
      StepKeepsInv(ss[j - 1], ss[j], es[j - 1]);
    }
  }

  // ---- progress ----------------------------------------------------------------------

  /** How many of its own steps the poller needs, at most, until message n is collected. */
  function Rank(s: Sys, n: nat): nat {
    if n <= s.drained then 0
    else match s.pc
      case Draining(u, timed) => if n <= u then 1 else if timed then 4 else 5
      case Ready(_) => 2
      case Loop => 3
      case Outside => 4
      case Waiting(_, _) => 4
      case Sleep => 5
  }

  /** How long it may still sleep before that. */
  function Budget(s: Sys, n: nat): nat {
    if n <= s.drained then 0
    else match s.pc
      case Sleep => WAIT_NS
      case Waiting(deadline, woken) => if !woken && deadline >= s.now then deadline - s.now else 0
      case _ => 0
  }

  lemma StepMovesOn(s: Sys, s': Sys, e: Event, n: nat)
    requires Inv(s) && Next(s, s', e) && Noticed(s, n) && n <= s.posted && !s'.stop
    ensures Noticed(s', n) && Rank(s', n) <= Rank(s, n)
    ensures IsPoller(e) && n > s.drained ==> Rank(s', n) < Rank(s, n)
    ensures s'.drained < n ==> s'.slept + Budget(s', n) <= s.slept + Budget(s, n)
  {
    DeadlineIsOneMillisecondOn(s.now);
  }

  function PollerSteps(es: seq<Event>): nat {
    if es == [] then 0 else PollerSteps(es[..|es| - 1]) + if IsPoller(es[|es| - 1]) then 1 else 0
  }

  lemma {:induction false} Progress(ss: seq<Sys>, es: seq<Event>, i: nat, j: nat, n: nat)
    requires Run(ss, es) && i <= j < |ss| && !ss[j].stop && n <= ss[i].announced
    ensures Noticed(ss[j], n) && n <= ss[j].posted
    ensures ss[j].drained < n ==> PollerSteps(es[i..j]) + Rank(ss[j], n) <= Rank(ss[i], n)
    ensures ss[j].drained < n ==> ss[j].slept + Budget(ss[j], n) <= ss[i].slept + Budget(ss[i], n)
    decreases j
  {
    NoDoorbellLost(ss, es, i);
    PostedGrows(ss, es, i, j);
    if i < j {
      PostedGrows(ss, es, j - 1, j);
      Progress(ss, es, i, j - 1, n);
      NoDoorbellLost(ss, es, j - 1);
      assert StepAt(ss, es, j - 1);
      StepMovesOn(ss[j - 1], ss[j], es[j - 1], n);
      assert es[i..j][..j - 1 - i] == es[i..j - 1];
    }
  }

  /** BOUNDED DELAY.  Once the flag has been raised for it, a message is collected after at most
      five steps of a poller that keeps polling, however the other threads interleave, and until
      then the poller sleeps no longer than one timed wait. */
  lemma CollectedSoon(ss: seq<Sys>, es: seq<Event>, i: nat, j: nat)
    requires Run(ss, es) && i <= j < |ss| && !ss[j].stop
    ensures PollerSteps(es[i..j]) >= 5 ==> ss[j].drained >= ss[i].announced
    ensures ss[j].drained < ss[i].announced ==> ss[j].slept - ss[i].slept <= 1_000_000
  {
    NoDoorbellLost(ss, es, i);
    Progress(ss, es, i, j, ss[i].announced);
  }

  // ---- what platform_poll does with flag, timeout and stop ---------------------------

  /** How often the flag was raised, and how many drains it started, in the first n steps. */
  function Raised(es: seq<Event>, n: nat): nat
    requires n <= |es|
  {
    if n == 0 then 0 else Raised(es, n - 1) + if es[n - 1].Flag? then 1 else 0
  }

  ghost function FlagDrains(ss: seq<Sys>, es: seq<Event>, n: nat): nat
    requires n <= |es| < |ss|
  {
    if n == 0 then 0
    else FlagDrains(ss, es, n - 1) + if es[n - 1].Start? && ss[n - 1].pc == Ready(false) then 1 else 0
  }

  /** ONE FLAG, ONE DRAIN.  The poller takes the flag down when it sees it: drains other than those
      after a timeout are no more than the times the flag was raised. */
  lemma {:induction false} FlagIsTaken(ss: seq<Sys>, es: seq<Event>, n: nat)
    requires Run(ss, es) && n <= |es|
    ensures FlagDrains(ss, es, n) + (if ss[n].pc == Ready(false) then 1 else 0) + (if ss[n].raised then 1 else 0)
            <= Raised(es, n)
  {
    if n > 0 {
      FlagIsTaken(ss, es, n - 1);
      assert StepAt(ss, es, n - 1);
    }
  }

  /** Message n has been collected, or a drain that will is about to start or under way. */
  predicate Coming(s: Sys, n: nat) {
    n <= s.drained || s.pc == Ready(true) || (s.pc.Draining? && n <= s.pc.upTo)
  }

  function StepsToCome(s: Sys, n: nat): nat {
    if n <= s.drained then 0 else if s.pc.Ready? then 2 else 1
  }

  /** A TIMEOUT DRAINS.  Two steps after a wait that timed out the poller has collected everything
      posted before it did, announced or not. */
  lemma {:induction false} TimeoutCollects(ss: seq<Sys>, es: seq<Event>, i: nat, j: nat)
    requires Run(ss, es) && i < j < |ss| && es[i] == Wake(true)
    ensures Coming(ss[j], ss[i].posted) && ss[i].posted <= ss[j].posted
    ensures PollerSteps(es[i + 1..j]) + StepsToCome(ss[j], ss[i].posted) <= 2 || ss[j].drained >= ss[i].posted
    ensures PollerSteps(es[i + 1..j]) >= 2 ==> ss[j].drained >= ss[i].posted
    decreases j
  {
    assert StepAt(ss, es, j - 1);
    PostedGrows(ss, es, i, j);
    if j == i + 1 {
      assert es[i + 1..j] == [];
    } else {
      TimeoutCollects(ss, es, i, j - 1);
      NoDoorbellLost(ss, es, j - 1);
      StepKeepsInv(ss[j - 1], ss[j], es[j - 1]);
      assert es[i + 1..j][..j - 2 - i] == es[i + 1..j - 1];
    }
  }

  /** Inside platform_poll with the flag not yet seen. */
  predicate Unrung(pc: Pc) {
    match pc
    case Ready(timed) => timed
    case Draining(_, timed) => timed
    case Outside => false
    case _ => true
  }

  ghost predicate SawFlag(ss: seq<Sys>, es: seq<Event>, i: nat, j: nat)
    requires |ss| == |es| + 1
  {
    exists k :: i < k < j && k < |es| && es[k].Test? && ss[k].raised
  }

  lemma {:induction false} InsidePoll(ss: seq<Sys>, es: seq<Event>, i: nat, j: nat)
    requires Run(ss, es) && i < j < |ss| && es[i].Call? && forall k :: i < k <= j ==> ss[k].pc != Outside
    ensures Unrung(ss[j].pc) || SawFlag(ss, es, i, j)
    decreases j
  {
    assert StepAt(ss, es, j - 1);
    if j > i + 1 {
      InsidePoll(ss, es, i, j - 1);
      if SawFlag(ss, es, i, j - 1) {
        var k :| i < k < j - 1 && k < |es| && es[k].Test? && ss[k].raised;
        assert SawFlag(ss, es, i, j);
      }
    }
  }

  /** IT RETURNS ONLY WHEN RUNG, or stopped: a call of platform_poll that is over found the flag raised
      in between, whatever timeouts and wake-ups it went through. */
  lemma ReturnsOnlyWhenRung(ss: seq<Sys>, es: seq<Event>, i: nat, j: nat)
    requires Run(ss, es) && i + 1 < j < |ss| && es[i].Call? && ss[j].pc == Outside && !ss[j].stop
    requires forall k :: i < k < j ==> ss[k].pc != Outside
    ensures SawFlag(ss, es, i, j)
  {
    InsidePoll(ss, es, i, j - 1);
    assert StepAt(ss, es, j - 1);
    if SawFlag(ss, es, i, j - 1) {
      var k :| i < k < j - 1 && k < |es| && es[k].Test? && ss[k].raised;
      assert SawFlag(ss, es, i, j);
    }
  }

  function StepsToLeave(pc: Pc): nat {
    match pc
    case Outside => 0
    case Loop => 1
    case Draining(_, timed) => if timed then 2 else 1
    case Ready(timed) => if timed then 3 else 2
    case Waiting(_, _) => 4
    case Sleep => 5
  }

  /** IT STOPS SOON.  Once force_stop is set the poller is out within five of its own steps. */
  lemma StopsSoon(ss: seq<Sys>, es: seq<Event>, i: nat, j: nat)
    requires Run(ss, es) && i <= j < |ss| && ss[i].stop && PollerSteps(es[i..j]) >= 5
    ensures exists k :: i <= k <= j && ss[k].pc == Outside
  {
    if forall k :: i <= k <= j ==> ss[k].pc != Outside {
      StaysIn(ss, es, i, j);
    }
  }

  lemma {:induction false} StaysIn(ss: seq<Sys>, es: seq<Event>, i: nat, j: nat)
    requires Run(ss, es) && i <= j < |ss| && ss[i].stop && forall k :: i <= k <= j ==> ss[k].pc != Outside
    ensures PollerSteps(es[i..j]) + StepsToLeave(ss[j].pc) <= StepsToLeave(ss[i].pc)
    decreases j
  {
    if i < j {
      StaysIn(ss, es, i, j - 1);
      PostedGrows(ss, es, i, j - 1);
      assert StepAt(ss, es, j - 1);
      assert es[i..j][..j - 1 - i] == es[i..j - 1];
    } else {
      assert es[i..j] == [];
    }
  }

  /** COALESCING.  However many doorbells rang, a drain that starts after the last of them was
      serviced and then finishes has collected what every one of them announced. */
  lemma OneDrainAnswersAll(ss: seq<Sys>, es: seq<Event>, i: nat, k: nat, j: nat)
    requires Run(ss, es) && i <= k < j < |ss| && es[k].Start? && !ss[j].pc.Draining?
    requires forall m :: k < m < j ==> ss[m].pc.Draining?
    ensures forall h :: 0 <= h <= i ==> ss[h].announced <= ss[j].drained
  {
    DrainCovers(ss, es, i, k, j);
    NoDoorbellLost(ss, es, i);
    forall h | 0 <= h <= i ensures ss[h].announced <= ss[j].drained {
      PostedGrows(ss, es, h, i);
    }
  }

  /** The flag is raised and the signal sent between the poller's test and its wait, and a millisecond
      of sleep later the message is still not collected. */
  ghost predicate MissesSignal(ss: seq<Sys>, es: seq<Event>) {
    && Run(ss, es) && es == [Post, Ring, Service(0), Call, Test, Flag, Notify, Wait, Tick(WAIT_NS)]
    && ss[5].pc == Sleep && ss[6].raised && ss[6].announced == 1
    && ss[9].pc == Waiting(ss[9].now, false) && ss[9].raised && ss[9].drained < 1
    && ss[9].slept - ss[6].slept == 1_000_000
  }

  lemma RunExtends(ss: seq<Sys>, es: seq<Event>, t: Sys, e: Event)
    requires Run(ss, es) && Next(ss[|es|], t, e)
    ensures Run(ss + [t], es + [e])
  {
    forall i | 0 <= i < |es| + 1 ensures StepAt(ss + [t], es + [e], i) {
      if i < |es| {
        assert StepAt(ss, es, i);
      }
    }
  }

  /** A message is posted and its doorbell serviced, up to the raising of the flag, while the poller
      finds the flag not raised and goes to sleep. */
  lemma TestedTooSoon() returns (ss: seq<Sys>, es: seq<Event>)
    ensures Run(ss, es) && es == [Post, Ring, Service(0), Call, Test]
    ensures ss[5] == Sys(1, false, Raise, false, Sleep, 0, false, 0, 0, 0)
  {
    var s0 := Sys(0, false, Idle, false, Outside, 0, false, 0, 0, 0);
    var s1 := s0.(posted := 1);
    var s2 := s1.(bell := true);
    var s3 := s2.(bell := false, isr := Raise);
    var s4 := s3.(pc := Loop);
    RunExtends([s0], [], s1, Post);
    RunExtends([s0, s1], [Post], s2, Ring);
    RunExtends([s0, s1, s2], [Post, Ring], s3, Service(0));
    RunExtends([s0, s1, s2, s3], [Post, Ring, Service(0)], s4, Call);
    ss, es := [s0, s1, s2, s3, s4, s4.(pc := Sleep)], [Post, Ring, Service(0), Call, Test];
    RunExtends([s0, s1, s2, s3, s4], [Post, Ring, Service(0), Call], s4.(pc := Sleep), Test);
  }

  /** THE BOUND IS MET.  A run from the start in which the signal falls between test and wait: it is
      missed, and the poller sleeps the whole millisecond with the flag raised before it did. */
  lemma SignalCanBeMissed()
    ensures exists ss, es :: MissesSignal(ss, es)
  {
    DeadlineIsOneMillisecondOn(0);
    var ss, es := TestedTooSoon();
    var s6 := ss[5].(raised := true, announced := 1, isr := Signal);
    var s7 := s6.(isr := Idle);
    var s8 := s7.(pc := Waiting(WAIT_NS, false));
    var s9 := s8.(now := WAIT_NS, slept := WAIT_NS);
    RunExtends(ss, es, s6, Flag);
    RunExtends(ss + [s6], es + [Flag], s7, Notify);
    RunExtends(ss + [s6] + [s7], es + [Flag] + [Notify], s8, Wait);
    RunExtends(ss + [s6] + [s7] + [s8], es + [Flag] + [Notify] + [Wait], s9, Tick(WAIT_NS));
    assert MissesSignal(ss + [s6] + [s7] + [s8] + [s9], es + [Flag] + [Notify] + [Wait] + [Tick(WAIT_NS)]);
  }
}
