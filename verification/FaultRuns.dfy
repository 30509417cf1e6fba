/** The fault record over whole runs: restarts, initialisations and fault calls that take turns
    in any order, read by somebody who looks whenever it likes.  What the record promises
    holds as long as at most one of the calls still to run is in the middle of its stores. */
module FaultRuns {
  import opened Arm
  import opened Options
  import opened FaultRecord

  // ---- runs --------------------------------------------------------------------------

  /** All calls since the last restart; those in `gone` will never run again.  `author` and
      `found` are history: whose record it is, and the name field that call started from. */
  datatype Sys = Sys(rec: Rec, acts: seq<Act>, gone: set<nat>, author: Option<Call>, found: Name)

  datatype Event = Boot | StartInit | Enter(call: Call) | Step(k: nat) | Abandon(k: nat)

  ghost predicate Live(s: Sys, k: int) {
    0 <= k < |s.acts| && k !in s.gone
  }

  ghost predicate Next(s: Sys, s': Sys, e: Event) {
    match e
    case Boot => s' == s.(acts := [], gone := {})
    case StartInit => s.acts == [] && s' == s.(acts := [Init(Begin, 0)])
    case Enter(call) => call.Valid() && s' == s.(acts := s.acts + [Fault(call, Begin, NO_NAME)])
    case Step(k) => Live(s, k) && s.acts[k].pc != Halted && s' == Stepped(s, k, StepAct(s.rec, s.acts[k]))
    case Abandon(k) => k < |s.acts| && s' == s.(gone := s.gone + {k})
  }

  /** Any call that is not finished may make its next step n. */
  ghost function Stepped(s: Sys, k: nat, n: Moved): Sys
    requires k < |s.acts|
  {
    s.(rec := n.rec, acts := s.acts[k := n.act],
       author := if Publishes(s.acts[k]) then Some(s.acts[k].call) else s.author,
       found := if Publishes(s.acts[k]) then s.acts[k].before else s.found)
  }

  predicate Publishes(a: Act) {
    a.Fault? && a.pc == Kind
  }

  ghost predicate Run(ss: seq<Sys>, es: seq<Event>) {
    && |ss| == |es| + 1
    && ss[0].acts == [] && ss[0].gone == {} && ss[0].rec.magic != MAGIC && ss[0].author == None
    && forall i :: 0 <= i < |es| ==> StepAt(ss, es, i)
  }

  ghost predicate StepAt(ss: seq<Sys>, es: seq<Event>, i: nat)
    requires |ss| == |es| + 1 && i < |es|
  {
    Next(ss[i], ss[i + 1], es[i])
  }

  // ---- the discipline ----------------------------------------------------------------

  /** Past its tests and before its last store. */
  predicate Busy(a: Act) {
    if a.Init? then a.pc != Begin && a.pc != Halted else a.pc != Begin && a.pc != Test && a.pc != Halted
  }

  /** At most one call that will still run is in the middle of its stores. */
  ghost predicate Exclusive(s: Sys) {
    forall i, j :: 0 <= i < j < |s.acts| && Live(s, i) && Live(s, j) ==> !(Busy(s.acts[i]) && Busy(s.acts[j]))
  }

  ghost predicate AllExclusive(ss: seq<Sys>, i: nat) {
    forall k :: 0 <= k < i && k < |ss| ==> Exclusive(ss[k])
  }

  /** Fault calls that preempt each other and never return: only the last can still run. */
  ghost predicate Nested(s: Sys) {
    forall k :: 0 <= k < |s.acts| - 1 && Live(s, k) ==> s.acts[k].pc == Halted
  }

  lemma NestedIsExclusive(s: Sys)
    requires Nested(s)
    ensures Exclusive(s)
  {
  }

  /** What a caller can ensure otherwise, by running the call with interrupts masked or the
      scheduler suspended: a call makes a step only when no other is under way. */
  ghost predicate Masked(ss: seq<Sys>, es: seq<Event>) {
    forall i, j :: 0 <= i < |es| && i < |ss| && es[i].Step? && j != es[i].k && Live(ss[i], j) ==> AtRest(ss[i].acts[j])
  }

  predicate AtRest(a: Act) {
    a.pc == Begin || a.pc == Halted
  }

  ghost predicate OneUnderWay(s: Sys) {
    forall i, j :: 0 <= i < j < |s.acts| && Live(s, i) && Live(s, j) ==> AtRest(s.acts[i]) || AtRest(s.acts[j])
  }

  lemma {:induction false} MaskedIsExclusive(ss: seq<Sys>, es: seq<Event>, i: nat)
    requires Run(ss, es) && Masked(ss, es) && i < |ss|
    ensures OneUnderWay(ss[i]) && Exclusive(ss[i])
  {
    if i > 0 {
      MaskedIsExclusive(ss, es, i - 1);
      assert StepAt(ss, es, i - 1);
      MaskedStep(ss[i - 1], ss[i], es[i - 1]);
    }
  }

  lemma MaskedStep(s: Sys, s': Sys, e: Event)
    requires Next(s, s', e) && OneUnderWay(s)
    requires e.Step? ==> forall j :: j != e.k && Live(s, j) ==> AtRest(s.acts[j])
    ensures OneUnderWay(s')
  {
    forall i, j | 0 <= i < j < |s'.acts| && Live(s', i) && Live(s', j)
      ensures AtRest(s'.acts[i]) || AtRest(s'.acts[j])
    {
      if e.Step? {
        assert i != e.k ==> Live(s, i) && s'.acts[i] == s.acts[i];
        assert j != e.k ==> Live(s, j) && s'.acts[j] == s.acts[j];
      }
    }
  }

  // ---- invariant ---------------------------------------------------------------------

  ghost predicate Published(r: Rec) {
    r.magic == MAGIC && r.kind != 0
  }

  /** The record is what call c stores into a field that held `before`. */
  ghost predicate IsRecord(r: Rec, c: Call, before: Name) {
    r.kind == c.kind && r.arg0 == c.arg0 && r.arg1 == c.arg1 && r.lr == c.lr && r.task == Named(before, c.name)
  }

  /** What a call that runs undisturbed has established. */
  ghost predicate Progress(r: Rec, a: Act) {
    match a
    case Init(pc, _) => InitProgress(r, pc)
    case Fault(call, pc, before) => call.Valid() && Reachable(call, pc) && FaultProgress(r, call, pc, before)
  }

  ghost predicate InitProgress(r: Rec, pc: Pc) {
    match pc
    case Begin => true
    case Clear(k) => k < 23 && (k > 0 ==> Clearing(r, k))
    case Version => Wiped(r)
    case Boots => Wiped(r)
    case Quiet => Wiped(r)
    case Magic => Wiped(r)
    case Halted => true
    case _ => false
  }

  ghost predicate Reachable(call: Call, pc: Pc) {
    pc != Boots && pc != Quiet && (pc.Text? ==> call.name.Some? && pc.i <= |Shown(call.name.value)|)
  }

  ghost predicate FaultProgress(r: Rec, call: Call, pc: Pc, before: Name) {
    match pc
    case Clear(k) => k < 23 && Clearing(r, k)
    case Magic => Wiped(r)
    case Version => r.magic == MAGIC ==> r.kind == 0
    case Arg0 => r.magic == MAGIC ==> Open(r, before) && r.task == before
    case Arg1 => r.magic == MAGIC ==> Open(r, before) && r.task == before && r.arg0 == call.arg0
    case Lr => r.magic == MAGIC ==> Open(r, before) && r.task == before && r.arg0 == call.arg0 && r.arg1 == call.arg1
    case Text(i) =>
      r.magic == MAGIC ==> Open(r, before) && Args(r, call) && call.name.Some? && Copying(r, call.name.value, i, before)
    case Kind => r.magic == MAGIC ==> Open(r, before) && Args(r, call) && r.task == Named(before, call.name)
    case _ => true
  }

  /** memset has stored its first k values. */
  ghost predicate Clearing(r: Rec, k: nat) {
    r.magic != MAGIC && (k > 3 ==> r.kind == 0) && forall j :: 0 <= j < k - 7 && j < 16 ==> r.task[j] == 0
  }

  ghost predicate Wiped(r: Rec) {
    r.magic != MAGIC && r.kind == 0 && r.task == NO_NAME
  }

  ghost predicate Open(r: Rec, before: Name) {
    r.kind == 0 && before[15] == 0
  }

  ghost predicate Args(r: Rec, c: Call) {
    r.arg0 == c.arg0 && r.arg1 == c.arg1 && r.lr == c.lr
  }

  ghost predicate Inv(s: Sys) {
    && (s.rec.magic == MAGIC ==> s.rec.task[15] == 0)
    && (Published(s.rec) ==> s.author.Some? && s.author.value.Valid() && s.found[15] == 0
                             && IsRecord(s.rec, s.author.value, s.found))
    && (forall k :: Live(s, k) ==> Progress(s.rec, s.acts[k]))
  }

  lemma CopyStepKeeps(r: Rec, call: Call, i: nat, before: Name)
    requires call.Valid() && Reachable(call, Text(i)) && FaultProgress(r, call, Text(i), before)
    ensures var n := StepFault(r, call, Text(i), before);
            && FaultProgress(n.rec, call, n.act.pc, before) && Reachable(call, n.act.pc)
            && n.act == Fault(call, n.act.pc, before) && n.rec == r.(task := n.rec.task)
            && (r.magic == MAGIC ==> n.rec.task[15] == 0)
  {
    var name := call.name.value;
    if r.magic == MAGIC {
      if i < 15 && i < |name| {
        CopyGoes(r.task, name, i, before);
      } else {
        CopyEnds(r.task, name, i, before);
      }
    }
  }

  lemma FaultStepKeeps(r: Rec, call: Call, pc: Pc, before: Name)
    requires Progress(r, Fault(call, pc, before)) && (r.magic == MAGIC ==> r.task[15] == 0)
    ensures var n := StepFault(r, call, pc, before);
            && Progress(n.rec, n.act) && (n.rec.magic == MAGIC ==> n.rec.task[15] == 0)
            && (Published(n.rec) ==>
                if pc == Kind then before[15] == 0 && IsRecord(n.rec, call, before) else n.rec == r)
  {
    if pc.Text? {
      CopyStepKeeps(r, call, pc.i, before);
    } else if pc.Kind? && before[15] == 0 {
      NameShown(before, call);
    }
  }

  lemma InitStepKeeps(r: Rec, pc: Pc, boots: Word)
    requires Progress(r, Init(pc, boots)) && (r.magic == MAGIC ==> r.task[15] == 0)
    ensures var n := StepInit(r, pc, boots);
            && Progress(n.rec, n.act) && (n.rec.magic == MAGIC ==> n.rec.task[15] == 0)
            && (Published(n.rec) ==> n.rec == r)
  {
  }

  /** Only a call in the middle of its stores changes the record, and others then are not. */
  lemma OthersKeep(s: Sys, k: nat, j: nat)
    requires Inv(s) && Exclusive(s) && Live(s, k) && Live(s, j) && j != k && s.acts[k].pc != Halted
    ensures Progress(StepAct(s.rec, s.acts[k]).rec, s.acts[j])
  {
    OnlyBusyStores(s.rec, s.acts[k]);
    assert Progress(s.rec, s.acts[j]);
  }

  lemma OnlyBusyStores(r: Rec, a: Act)
    ensures !Busy(a) ==> StepAct(r, a).rec == r
  {
  }

  lemma StepKeepsInv(s: Sys, s': Sys, e: Event)
    requires Inv(s) && Exclusive(s) && Next(s, s', e)
    ensures Inv(s')
  {
    if e.Step? {
      ActKeepsInv(s, e.k);
    } else {
      forall k | Live(s', k) ensures Progress(s'.rec, s'.acts[k]) {
        assert k < |s.acts| && !e.Boot? ==> Live(s, k) && s'.acts[k] == s.acts[k];
      }
    }
  }

  lemma ActKeepsInv(s: Sys, k: nat)
    requires Inv(s) && Exclusive(s) && Live(s, k) && s.acts[k].pc != Halted
    ensures Inv(Stepped(s, k, StepAct(s.rec, s.acts[k])))
  {
    var s' := Stepped(s, k, StepAct(s.rec, s.acts[k]));
    assert Progress(s.rec, s.acts[k]);
    match s.acts[k] {
      case Init(pc, boots) => InitStepKeeps(s.rec, pc, boots);
      case Fault(call, pc, before) => FaultStepKeeps(s.rec, call, pc, before);
    }
    forall j | Live(s', j) ensures Progress(s'.rec, s'.acts[j]) {
      if j != k {
        OthersKeep(s, k, j);
      }
    }
  }

  lemma {:induction false} RunKeepsInv(ss: seq<Sys>, es: seq<Event>, i: nat)
    requires Run(ss, es) && i < |ss| && AllExclusive(ss, i)
    ensures Inv(ss[i])
  {
    if i > 0 {
      RunKeepsInv(ss, es, i - 1);
      assert StepAt(ss, es, i - 1) && Exclusive(ss[i - 1]);
      StepKeepsInv(ss[i - 1], ss[i], es[i - 1]);
    }
  }

  // ---- what a reader sees ------------------------------------------------------------

  /** No call of r8_blackbox_init makes a step from state i up to state j. */
  ghost predicate NoInit(ss: seq<Sys>, es: seq<Event>, i: nat, j: nat)
    requires j < |ss| == |es| + 1
  {
    forall k :: i <= k < j ==> !InitStep(ss, es, k)
  }

  ghost predicate InitStep(ss: seq<Sys>, es: seq<Event>, k: nat)
    requires k < |ss| == |es| + 1
  {
    k < |es| && es[k].Step? && es[k].k < |ss[k].acts| && ss[k].acts[es[k].k].Init?
  }

  lemma StepKeepsRecord(s: Sys, s': Sys, e: Event)
    requires Inv(s) && Next(s, s', e) && s.rec.magic == MAGIC
    requires e.Step? ==> s.acts[e.k].Fault?
    ensures s'.rec.magic == MAGIC && s'.rec.boots == s.rec.boots
    ensures s.rec.kind != 0 ==> s' == s.(acts := s'.acts, gone := s'.gone)
  {
    if e.Step? {
      assert Progress(s.rec, s.acts[e.k]);
    }
  }

  /** FIRST FAULT WINS.  Once the magic is there nothing but r8_blackbox_init removes it or moves
      boot_count, and once a fault type is there no fault call, whatever their interleaving,
      changes any field, as long as at most one of them is in the middle of its stores. */
  lemma {:induction false} RecordStays(ss: seq<Sys>, es: seq<Event>, i: nat, j: nat)
    requires Run(ss, es) && i <= j < |ss| && AllExclusive(ss, j) && NoInit(ss, es, i, j) && ss[i].rec.magic == MAGIC
    ensures ss[j].rec.magic == MAGIC && ss[j].rec.boots == ss[i].rec.boots
    ensures ss[i].rec.kind != 0 ==>
              ss[j].rec == ss[i].rec && ss[j].author == ss[i].author && ss[j].found == ss[i].found
    decreases j
  {
    if i < j {
      RecordStays(ss, es, i, j - 1);
      RunKeepsInv(ss, es, j - 1);
      assert StepAt(ss, es, j - 1) && !InitStep(ss, es, j - 1);
      StepKeepsRecord(ss[j - 1], ss[j], es[j - 1]);
    }
  }

  ghost predicate Called(es: seq<Event>, i: nat, c: Call) {
    exists k :: 0 <= k < i && k < |es| && es[k] == Enter(c)
  }

  lemma {:induction false} AllCalled(ss: seq<Sys>, es: seq<Event>, i: nat)
    requires Run(ss, es) && i < |ss|
    ensures forall k :: 0 <= k < |ss[i].acts| && ss[i].acts[k].Fault? ==> Called(es, i, ss[i].acts[k].call)
    ensures ss[i].author.Some? ==> Called(es, i, ss[i].author.value)
  {
    if i > 0 {
      AllCalled(ss, es, i - 1);
      assert StepAt(ss, es, i - 1);
      var s, s' := ss[i - 1], ss[i];
      forall c | Called(es, i - 1, c) ensures Called(es, i, c) {
        var k :| 0 <= k < i - 1 && k < |es| && es[k] == Enter(c);
        assert es[k] == Enter(c);
      }
      if es[i - 1].Enter? {
        assert Called(es, i, es[i - 1].call);
      }
      forall k | 0 <= k < |s'.acts| && s'.acts[k].Fault? ensures Called(es, i, s'.acts[k].call) {
        if k < |s.acts| {
          assert s.acts[k].Fault? && s'.acts[k].call == s.acts[k].call;
        }
      }
    }
  }

  /** The type read at j and the fields read at k come from one call, made before j; its name is
      shown cut to 15 characters, or, if it gave none, what the field held before. */
  ghost predicate SeenAsOne(ss: seq<Sys>, es: seq<Event>, j: nat, k: nat)
    requires j < |ss| && k < |ss|
  {
    && ss[j].author.Some? && Called(es, j, ss[j].author.value)
    && var c, r := ss[j].author.value, ss[k].rec;
       && ss[j].rec.kind == c.kind && r.arg0 == c.arg0 && r.arg1 == c.arg1 && r.lr == c.lr
       && r.task[15] == 0 && (c.name.Some? ==> Text0(r.task) == Shown(c.name.value))
       && (c.name == None ==> (Text0(r.task) == [] <==> ss[j].found[0] == 0))
  }

  /** NEVER TORN.  A reader takes the magic at state i, the type at j and any other field at k,
      in that order and as slowly as it likes; if both tests pass, no initialisation ran in
      between and the calls keep out of each other's stores, then arguments, return address and
      name are those of one and the same call, made earlier: the one whose type it read. */
  lemma ReaderSeesOneCall(ss: seq<Sys>, es: seq<Event>, i: nat, j: nat, k: nat)
    requires Run(ss, es) && i <= j <= k < |ss| && AllExclusive(ss, k) && NoInit(ss, es, i, k)
    requires ss[i].rec.magic == MAGIC && ss[j].rec.kind != 0
    ensures SeenAsOne(ss, es, j, k)
  {
    assert NoInit(ss, es, i, j) && NoInit(ss, es, j, k) by {
      assert forall n :: i <= n < k ==> !InitStep(ss, es, n);
    }
    RecordStays(ss, es, i, j);
    RecordStays(ss, es, j, k);
    RunKeepsInv(ss, es, j);
    AllCalled(ss, es, j);
    NameShown(ss[j].found, ss[j].author.value);
  }

  /** WHAT A CALLER CAN ENSURE: if the calls run masked, or preempt each other and never return, the
      same holds, and nothing changes a published record. */
  lemma MaskedOrNestedIsEnough(ss: seq<Sys>, es: seq<Event>, i: nat, j: nat, k: nat)
    requires Run(ss, es) && (Masked(ss, es) || forall n :: 0 <= n < |ss| ==> Nested(ss[n]))
    requires i <= j <= k < |ss| && NoInit(ss, es, i, k) && ss[i].rec.magic == MAGIC && ss[j].rec.kind != 0
    ensures SeenAsOne(ss, es, j, k) && ss[k].rec == ss[j].rec
  {
    forall n | 0 <= n < |ss| ensures Exclusive(ss[n]) {
      if Masked(ss, es) {
        MaskedIsExclusive(ss, es, n);
      } else {
        NestedIsExclusive(ss[n]);
      }
    }
    ReaderSeesOneCall(ss, es, i, j, k);
    assert NoInit(ss, es, i, j) && NoInit(ss, es, j, k) by {
      assert forall n :: i <= n < k ==> !InitStep(ss, es, n);
    }
    RecordStays(ss, es, i, j);
    RecordStays(ss, es, j, k);
  }

  /** Where a call that entered with index n stands. */
  ghost predicate Standing(s: Sys, n: nat, call: Call) {
    && n < |s.acts| && s.acts[n].Fault? && s.acts[n].call == call
    && match s.acts[n].pc
       case Begin => true
       case Clear(_) => true
       case Magic => true
       case Halted => s.rec.magic == MAGIC && (call.kind != 0 ==> s.rec.kind != 0)
       case _ => s.rec.magic == MAGIC
  }

  lemma StandingStep(s: Sys, s': Sys, e: Event, n: nat, call: Call)
    requires Inv(s) && Next(s, s', e) && !e.Boot? && Standing(s, n, call)
    requires e.Step? ==> s.acts[e.k].Fault?
    ensures Standing(s', n, call)
  {
    if s.rec.magic == MAGIC {
      StepKeepsRecord(s, s', e);
    }
    if e.Step? {
      assert Progress(s.rec, s.acts[e.k]);
    }
  }

  lemma {:induction false} StaysStanding(ss: seq<Sys>, es: seq<Event>, i: nat, j: nat)
    requires Run(ss, es) && i < j < |ss| && AllExclusive(ss, j) && es[i].Enter? && NoInit(ss, es, i, j)
    requires forall m :: i <= m < j ==> !es[m].Boot?
    ensures Standing(ss[j], |ss[i].acts|, es[i].call)
    decreases j
  {
    assert StepAt(ss, es, j - 1) && !InitStep(ss, es, j - 1);
    if i + 1 < j {
      StaysStanding(ss, es, i, j - 1);
      RunKeepsInv(ss, es, j - 1);
      StandingStep(ss[j - 1], ss[j], es[j - 1], |ss[i].acts|, es[i].call);
    }
  }

  /** Every fault call that gets to its end, with a real type, leaves a fault on record. */
  lemma FinishedCallIsOnRecord(ss: seq<Sys>, es: seq<Event>, i: nat, j: nat)
    requires Run(ss, es) && i < j < |ss| && AllExclusive(ss, j) && es[i].Enter? && NoInit(ss, es, i, j)
    requires forall m :: i <= m < j ==> !es[m].Boot?
    requires |ss[i].acts| < |ss[j].acts| && ss[j].acts[|ss[i].acts|].pc == Halted && es[i].call.kind != 0
    ensures Published(ss[j].rec)
  {
    StaysStanding(ss, es, i, j);
  }

  // ---- boot_count --------------------------------------------------------------------

  /** An initialisation that began when the count was b, as long as it can still run. */
  ghost predicate Initialising(s: Sys, b: Word) {
    && |s.acts| > 0 && s.acts[0].Init?
    && (Live(s, 0) ==>
          var a := s.acts[0];
          && (a.pc == Begin ==> s.rec.magic == MAGIC && s.rec.boots == b)
          && (a.pc != Begin ==> a.boots == b)
          && (a.pc == Boots || a.pc == Quiet || a.pc == Magic ==> s.rec.version == VERSION)
          && (a.pc == Quiet || a.pc == Magic ==> s.rec.boots == Add32(b, 1)))
  }

  ghost predicate Finishes(s: Sys, e: Event) {
    e == Step(0) && |s.acts| > 0 && s.acts[0].Init? && s.acts[0].pc == Magic
  }

  lemma InitialisingStep(s: Sys, s': Sys, e: Event, b: Word)
    requires Inv(s) && Exclusive(s) && OneInit(s) && Next(s, s', e) && Initialising(s, b) && !e.Boot?
    ensures Initialising(s', b)
    ensures Finishes(s, e) ==> s'.rec.magic == MAGIC && s'.rec.version == VERSION && s'.rec.kind == 0
                               && s'.rec.boots == Add32(b, 1) && s'.rec.task == NO_NAME
  {
    if e.Step? {
      assert Progress(s.rec, s.acts[e.k]);
      OnlyBusyStores(s.rec, s.acts[e.k]);
      if e.k != 0 && s.rec.magic == MAGIC {
        StepKeepsRecord(s, s', e);
      }
    }
  }

  ghost predicate OneInit(s: Sys) {
    forall k :: 0 < k < |s.acts| ==> s.acts[k].Fault?
  }

  lemma {:induction false} RunKeepsOneInit(ss: seq<Sys>, es: seq<Event>, i: nat)
    requires Run(ss, es) && i < |ss|
    ensures OneInit(ss[i])
  {
    if i > 0 {
      RunKeepsOneInit(ss, es, i - 1);
      assert StepAt(ss, es, i - 1);
    }
  }

  lemma {:induction false} StaysInitialising(ss: seq<Sys>, es: seq<Event>, i: nat, j: nat, b: Word)
    requires Run(ss, es) && i < j < |ss| && AllExclusive(ss, j) && es[i].StartInit?
    requires ss[i].rec.magic == MAGIC && ss[i].rec.boots == b
    requires forall m :: i <= m < j ==> !es[m].Boot?
    ensures Initialising(ss[j], b)
    decreases j
  {
    assert StepAt(ss, es, j - 1);
    if i + 1 < j {
      StaysInitialising(ss, es, i, j - 1, b);
      RunKeepsInv(ss, es, j - 1);
      RunKeepsOneInit(ss, es, j - 1);
      assert Exclusive(ss[j - 1]);
      InitialisingStep(ss[j - 1], ss[j], es[j - 1], b);
    }
  }

  /** BOOT COUNT.  From any state with the magic in place, whatever faults and restarts follow,
      the next initialisation that completes leaves the count one higher and the record empty. */
  lemma BootCountGrows(ss: seq<Sys>, es: seq<Event>, i: nat, j: nat, k: nat)
    requires Run(ss, es) && i <= j < k < |es| && AllExclusive(ss, k + 1)
             && NoInit(ss, es, i, j) && ss[i].rec.magic == MAGIC
    requires es[j].StartInit? && Finishes(ss[k], es[k]) && forall m :: j <= m <= k ==> !es[m].Boot?
    ensures ss[k + 1].rec.boots == Add32(ss[i].rec.boots, 1) && ss[k + 1].rec.magic == MAGIC && ss[k + 1].rec.kind == 0
    ensures ss[k + 1].rec.version == VERSION && ss[k + 1].rec.task == NO_NAME
  {
    RecordStays(ss, es, i, j);
    StaysInitialising(ss, es, j, k, ss[i].rec.boots);
    RunKeepsInv(ss, es, k);
    RunKeepsOneInit(ss, es, k);
    assert StepAt(ss, es, k) && Exclusive(ss[k]);
    InitialisingStep(ss[k], ss[k + 1], es[k], ss[i].rec.boots);
  }
}
