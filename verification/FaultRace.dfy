/** What goes wrong when fault calls do get into each other's stores, and exactly when it can. */
module FaultRace {
  import opened Arm
  import opened Options
  import opened FaultRecord
  import opened FaultRuns

  // ---- a call as a list of stores ----------------------------------------------------

  /** Fields of the record: 0 arg0, 1 arg1, 2 lr, 3 type, 4 + i the i-th character of the name. */
  datatype Put = Put(field: nat, value: Word)

  function Field(r: Rec, f: nat): Word {
    if f == 0 then r.arg0 else if f == 1 then r.arg1 else if f == 2 then r.lr else if f == 3 then r.kind
    else if f < 20 then r.task[f - 4] else 0
  }

  function PutCount(c: Call): nat {
    if c.name.Some? then 5 + |Shown(c.name.value)| else 4
  }

  /** The n-th store of a call that has passed its tests; the type comes last. */
  function PutAt(c: Call, n: nat): Put
    requires n < PutCount(c)
  {
    if n == 0 then Put(0, c.arg0)
    else if n == 1 then Put(1, c.arg1)
    else if n == 2 then Put(2, c.lr)
    else if n == PutCount(c) - 1 then Put(3, c.kind)
    else Put(n + 1, if n - 3 < |Shown(c.name.value)| then Shown(c.name.value)[n - 3] else 0)
  }

  function Puts(c: Call): seq<Put> {
    seq(PutCount(c), n requires 0 <= n < PutCount(c) => PutAt(c, n))
  }

  predicate InWindow(pc: Pc) {
    pc.Arg0? || pc.Arg1? || pc.Lr? || pc.Text? || pc.Kind?
  }

  /** How many of them it has made. */
  function Done(a: Act): nat
    requires a.Fault?
  {
    match a.pc
    case Arg1 => 1
    case Lr => 2
    case Text(i) => 3 + i
    case Kind => |Puts(a.call)| - 1
    case Halted => |Puts(a.call)|
    case _ => 0
  }

  lemma PutsAre(c: Call)
    ensures var n := if c.name.Some? then |Shown(c.name.value)| + 1 else 0;
            && |Puts(c)| == 4 + n && Puts(c)[0] == Put(0, c.arg0)
            && Puts(c)[1] == Put(1, c.arg1) && Puts(c)[2] == Put(2, c.lr)
            && Puts(c)[3 + n] == Put(3, c.kind)
            && (forall i :: 0 <= i < n ==>
                  Puts(c)[3 + i] == Put(4 + i, if i < |Shown(c.name.value)| then Shown(c.name.value)[i] else 0))
  {
  }

  /** No field is stored twice by one call. */
  lemma DistinctFields(c: Call, i: nat, j: nat)
    requires i < |Puts(c)| && j < |Puts(c)| && i != j
    ensures Puts(c)[i].field != Puts(c)[j].field
  {
    PutsAre(c);
    FieldAt(c, i);
    FieldAt(c, j);
  }

  lemma FieldAt(c: Call, i: nat)
    requires i < |Puts(c)|
    ensures Puts(c)[i].field == if i < 3 then i else if i == |Puts(c)| - 1 then 3 else i + 1
    ensures i >= 3 && i < |Puts(c)| - 1 ==> c.name.Some? && i - 3 <= |Shown(c.name.value)|
  {
    PutsAre(c);
    if 3 <= i < |Puts(c)| - 1 {
      assert Puts(c)[3 + (i - 3)] == Puts(c)[i];
    }
  }

  /** A step of a call in its window makes exactly its next store. */
  lemma StepIsPut(r: Rec, a: Act)
    requires a.Fault? && InWindow(a.pc) && Reachable(a.call, a.pc)
    ensures var n := StepAct(r, a); var p := Puts(a.call)[Done(a)];
            && Done(a) < |Puts(a.call)|
            && n.act.Fault? && n.act.call == a.call && Done(n.act) == Done(a) + 1 && Reachable(a.call, n.act.pc)
            && (if Done(a) + 1 == |Puts(a.call)| then n.act.pc == Halted else InWindow(n.act.pc))
            && n.rec.magic == r.magic && n.rec.boots == r.boots && n.rec.version == r.version
            && (forall f :: Field(n.rec, f) == if f == p.field then p.value else Field(r, f))
  {
    PutsAre(a.call);
    if a.pc.Text? {
      TextIsPut(r, a);
    }
  }

  lemma TaskPut(r: Rec, i: nat, v: Byte)
    requires i < 16
    ensures forall f :: Field(r.(task := r.task[i := v]), f) == if f == 4 + i then v else Field(r, f)
  {
    var t: Name := r.task[i := v];
    var n := r.(task := t);
    forall f: nat ensures Field(n, f) == if f == 4 + i then v else Field(r, f) {
      if 4 <= f < 20 {
        assert n.task[f - 4] == if f - 4 == i then v else r.task[f - 4];
      }
    }
  }

  lemma TextIsPut(r: Rec, a: Act)
    requires a.Fault? && a.pc.Text? && Reachable(a.call, a.pc)
    ensures var n := StepAct(r, a); var p := Puts(a.call)[Done(a)];
            && Done(a) + 1 < |Puts(a.call)|
            && n.act.Fault? && n.act.call == a.call && Done(n.act) == Done(a) + 1
            && Reachable(a.call, n.act.pc) && InWindow(n.act.pc)
            && n.rec == r.(task := n.rec.task)
            && (forall f :: Field(n.rec, f) == if f == p.field then p.value else Field(r, f))
  {
    var i, name := a.pc.i, a.call.name.value;
    PutsAre(a.call);
    TaskPut(r, i, if i < |Shown(name)| then Shown(name)[i] else 0);
    assert Puts(a.call)[3 + i] == Put(4 + i, if i < |Shown(name)| then Shown(name)[i] else 0);
  }

  lemma SameFieldsSameRec(x: Rec, y: Rec)
    requires forall f :: Field(x, f) == Field(y, f)
    requires x.magic == y.magic && x.version == y.version && x.boots == y.boots
    ensures x == y
  {
    assert Field(x, 0) == Field(y, 0) && Field(x, 1) == Field(y, 1)
        && Field(x, 2) == Field(y, 2) && Field(x, 3) == Field(y, 3);
    forall i | 0 <= i < 16 ensures x.task[i] == y.task[i] {
      assert Field(x, 4 + i) == Field(y, 4 + i);
    }
  }

  // ---- what can go wrong -------------------------------------------------------------

  /** The record shows call c: its type, arguments and return address, and its name up to the
      terminator. */
  ghost predicate Shows(r: Rec, c: Call) {
    && r.kind == c.kind && r.arg0 == c.arg0 && r.arg1 == c.arg1 && r.lr == c.lr
    && (c.name.Some? ==> forall i :: 0 <= i <= |Shown(c.name.value)| ==>
          r.task[i] == if i < |Shown(c.name.value)| then Shown(c.name.value)[i] else 0)
  }

  /** Field by field, in the order of the stores. */
  ghost predicate AllPuts(r: Rec, c: Call) {
    forall n :: 0 <= n < |Puts(c)| ==> Field(r, Puts(c)[n].field) == Puts(c)[n].value
  }

  lemma ShowsIsAllPuts(r: Rec, c: Call)
    ensures Shows(r, c) <==> AllPuts(r, c)
  {
    PutsAre(c);
    if Shows(r, c) {
      forall n | 0 <= n < |Puts(c)| ensures Field(r, Puts(c)[n].field) == Puts(c)[n].value {
        if 3 <= n < |Puts(c)| - 1 {
          assert Puts(c)[3 + (n - 3)] == Puts(c)[n];
        }
      }
    }
    if AllPuts(r, c) {
      AllPutsShow(r, c);
    }
  }

  lemma AllPutsShow(r: Rec, c: Call)
    requires AllPuts(r, c)
    ensures Shows(r, c)
  {
    PutsAre(c);
    var last := |Puts(c)| - 1;
    assert Field(r, Puts(c)[0].field) == Puts(c)[0].value && Field(r, Puts(c)[1].field) == Puts(c)[1].value;
    assert Field(r, Puts(c)[2].field) == Puts(c)[2].value && Field(r, Puts(c)[last].field) == Puts(c)[last].value;
    if c.name.Some? {
      forall i | 0 <= i <= |Shown(c.name.value)|
        ensures r.task[i] == if i < |Shown(c.name.value)| then Shown(c.name.value)[i] else 0
      {
        assert Field(r, Puts(c)[3 + i].field) == Puts(c)[3 + i].value;
      }
    }
  }

  /** A published record is changed, or a record is published that shows no call. */
  ghost predicate WrongStep(s: Sys, s': Sys) {
    || (Published(s.rec) && s'.rec != s.rec)
    || (!Published(s.rec) && Published(s'.rec) &&
        forall k :: Live(s, k) && s.acts[k].Fault? ==> !Shows(s'.rec, s.acts[k].call))
  }

  /** Only calls already made go on, in any order; the last step goes wrong. */
  ghost predicate GoesWrong(ss: seq<Sys>, es: seq<Event>, s: Sys) {
    && |ss| == |es| + 1 && |es| > 0 && ss[0] == s
    && (forall i :: 0 <= i < |es| ==> es[i].Step? && StepAt(ss, es, i))
    && WrongStep(ss[|es| - 1], ss[|es|])
  }

  ghost predicate MayGoWrong(s: Sys) {
    exists ss, es :: GoesWrong(ss, es, s)
  }

  ghost predicate Unfinished(s: Sys, k: int) {
    Live(s, k) && s.acts[k].pc != Halted
  }

  /** The calls under way are fault calls with a real type.  With the magic in place, what each
      has stored so far is still there, and at most one has just put the magic there itself. */
  ghost predicate Clean(s: Sys) {
    && s.rec.magic == MAGIC
    && (forall k :: Unfinished(s, k) ==> s.acts[k].Fault? && Settled(s.rec, s.acts[k]))
    && forall j, k :: Unfinished(s, j) && Unfinished(s, k) && s.acts[j].pc == s.acts[k].pc == Version ==> j == k
  }

  ghost predicate Settled(r: Rec, a: Act)
    requires a.Fault?
  {
    && a.call.Valid() && a.call.kind != 0
    && (IsTest(a.pc) || (InWindow(a.pc) && Reachable(a.call, a.pc) && Kept(r, a)))
  }

  /** Nothing stored yet, or only the version. */
  predicate IsTest(pc: Pc) {
    pc == Begin || pc == Test || pc == Version
  }

  /** Without it, at most one of them has begun to clear the record. */
  ghost predicate Bare(s: Sys) {
    && s.rec.magic != MAGIC
    && (forall k :: Unfinished(s, k) ==> s.acts[k].Fault? && Wiping(s.rec, s.acts[k]))
    && forall j, k :: Unfinished(s, j) && Unfinished(s, k) && j != k ==> s.acts[j].pc == Begin || s.acts[k].pc == Begin
  }

  ghost predicate Wiping(r: Rec, a: Act)
    requires a.Fault?
  {
    Progress(r, a) && a.call.kind != 0 && FoundNoMagic(a.pc)
  }

  predicate FoundNoMagic(pc: Pc) {
    pc.Begin? || pc.Clear? || pc.Magic?
  }

  ghost predicate Covered(s: Sys) {
    Clean(s) || Bare(s)
  }

  ghost predicate Kept(r: Rec, a: Act)
    requires a.Fault?
  {
    forall n :: 0 <= n < Done(a) && n < |Puts(a.call)| ==> Field(r, Puts(a.call)[n].field) == Puts(a.call)[n].value
  }

  /** Every call still to run is a fault call with a real type, and no initialisation was left half
      done since the restart. */
  ghost predicate OnlyFaults(s: Sys) {
    && (forall k :: Unfinished(s, k) ==> s.acts[k].Fault? && s.acts[k].call.kind != 0)
    && (|s.acts| > 0 && s.acts[0].Init? ==> AtRest(s.acts[0]))
  }

  /** Calls that have kept out of each other's stores so far, in any run, leave such a state. */
  lemma DisciplinedIsCovered(ss: seq<Sys>, es: seq<Event>, i: nat)
    requires Run(ss, es) && i < |ss| && AllExclusive(ss, i + 1) && OnlyFaults(ss[i])
    ensures Covered(ss[i])
  {
    RunKeepsInv(ss, es, i);
    RunKeepsFresh(ss, es, i);
    assert Exclusive(ss[i]);
    if ss[i].rec.magic == MAGIC {
      DisciplinedIsClean(ss[i]);
    } else {
      DisciplinedIsBare(ss[i]);
    }
  }

  lemma DisciplinedIsClean(s: Sys)
    requires Inv(s) && Exclusive(s) && OnlyFaults(s) && s.rec.magic == MAGIC
    ensures Clean(s)
  {
    forall k | Unfinished(s, k) ensures s.acts[k].Fault? && Settled(s.rec, s.acts[k]) {
      assert Progress(s.rec, s.acts[k]);
      if InWindow(s.acts[k].pc) {
        ProgressIsKept(s.rec, s.acts[k]);
      }
    }
    forall j, k | Unfinished(s, j) && Unfinished(s, k) && s.acts[j].pc == Version && s.acts[k].pc == Version
      ensures j == k
    {
      assert Busy(s.acts[j]) && Busy(s.acts[k]);
    }
  }

  lemma DisciplinedIsBare(s: Sys)
    requires Inv(s) && Exclusive(s) && OnlyFaults(s) && Fresh(s) && s.rec.magic != MAGIC
    ensures Bare(s)
  {
    forall k | Unfinished(s, k) ensures s.acts[k].Fault? && Wiping(s.rec, s.acts[k]) {
      assert Live(s, k) && Progress(s.rec, s.acts[k]);
    }
    forall j, k | Unfinished(s, j) && Unfinished(s, k) && j != k
      ensures s.acts[j].pc == Begin || s.acts[k].pc == Begin
    {
      assert Wiping(s.rec, s.acts[j]) && Wiping(s.rec, s.acts[k]);
      if j < k {
        assert !(Busy(s.acts[j]) && Busy(s.acts[k]));
      } else {
        assert !(Busy(s.acts[k]) && Busy(s.acts[j]));
      }
    }
  }

  /** While the magic is missing no fault call gets past its first test, except when an
      initialisation removes the magic under way. */
  ghost predicate Fresh(s: Sys) {
    s.rec.magic != MAGIC && !(|s.acts| > 0 && s.acts[0].Init? && !AtRest(s.acts[0])) ==>
      forall k :: Unfinished(s, k) && s.acts[k].Fault? ==> FoundNoMagic(s.acts[k].pc)
  }

  lemma StepKeepsFresh(s: Sys, s': Sys, e: Event)
    requires Inv(s) && OneInit(s) && Fresh(s) && Next(s, s', e)
    ensures Fresh(s')
  {
    if e.Step? {
      assert Progress(s.rec, s.acts[e.k]);
      forall k | Unfinished(s', k) && k != e.k ensures Unfinished(s, k) && s'.acts[k] == s.acts[k] {
      }
    } else {
      forall k | Unfinished(s', k) && k < |s.acts| && !e.Boot? ensures Unfinished(s, k) && s'.acts[k] == s.acts[k] {
      }
    }
  }

  lemma {:induction false} RunKeepsFresh(ss: seq<Sys>, es: seq<Event>, i: nat)
    requires Run(ss, es) && i < |ss| && AllExclusive(ss, i)
    ensures Fresh(ss[i])
  {
    if i > 0 {
      RunKeepsFresh(ss, es, i - 1);
      RunKeepsInv(ss, es, i - 1);
      RunKeepsOneInit(ss, es, i - 1);
      assert StepAt(ss, es, i - 1);
      StepKeepsFresh(ss[i - 1], ss[i], es[i - 1]);
    }
  }

  lemma ProgressIsKept(r: Rec, a: Act)
    requires r.magic == MAGIC && a.Fault? && InWindow(a.pc) && Progress(r, a)
    ensures Kept(r, a)
  {
    ArgsAreKept(r, a);
    if a.pc.Text? || (a.pc.Kind? && a.call.name.Some?) {
      NameIsKept(r, a);
    }
    forall n | 0 <= n < Done(a) && n < |Puts(a.call)| ensures Field(r, Puts(a.call)[n].field) == Puts(a.call)[n].value {
      OneIsKept(r, a, n);
    }
  }

  lemma ArgsAreKept(r: Rec, a: Act)
    requires r.magic == MAGIC && a.Fault? && InWindow(a.pc) && Progress(r, a)
    ensures (Done(a) > 0 ==> r.arg0 == a.call.arg0)
            && (Done(a) > 1 ==> r.arg1 == a.call.arg1) && (Done(a) > 2 ==> r.lr == a.call.lr)
    ensures Done(a) < |Puts(a.call)| && (Done(a) > 3 ==> a.call.name.Some? && (a.pc.Text? || a.pc.Kind?))
  {
    PutsAre(a.call);
  }

  lemma OneIsKept(r: Rec, a: Act, n: nat)
    requires a.Fault? && n < Done(a) < |Puts(a.call)|
    requires (Done(a) > 0 ==> r.arg0 == a.call.arg0)
             && (Done(a) > 1 ==> r.arg1 == a.call.arg1) && (Done(a) > 2 ==> r.lr == a.call.lr)
    requires Done(a) > 3 ==> a.call.name.Some?
    requires a.call.name.Some? ==> var u := Shown(a.call.name.value);
               forall m :: 0 <= m <= |u| && 3 + m < Done(a) ==> r.task[m] == if m < |u| then u[m] else 0
    ensures Field(r, Puts(a.call)[n].field) == Puts(a.call)[n].value
  {
    PutsAre(a.call);
    if n >= 3 {
      assert Puts(a.call)[3 + (n - 3)] == Puts(a.call)[n];
    }
  }

  lemma NameIsKept(r: Rec, a: Act)
    requires r.magic == MAGIC && a.Fault? && (a.pc.Text? || a.pc.Kind?) && a.call.name.Some? && Progress(r, a)
    ensures var u := Shown(a.call.name.value);
            forall m :: 0 <= m <= |u| && 3 + m < Done(a) ==> r.task[m] == if m < |u| then u[m] else 0
  {
    PutsAre(a.call);
  }

  /** What field f will hold if a runs to its end and nobody else does anything. */
  function Leaves(r: Rec, a: Act, f: nat): Word
    requires a.Fault?
  {
    LeavesFrom(r, Puts(a.call), Done(a), f)
  }

  function LeavesFrom(r: Rec, ps: seq<Put>, n: nat, f: nat): Word
    decreases |ps| - n
  {
    if n >= |ps| then Field(r, f) else if ps[n].field == f then ps[n].value else LeavesFrom(r, ps, n + 1, f)
  }

  /** The n-th store of a, still to come, would overwrite what b leaves with another value. */
  ghost predicate Spoils(r: Rec, a: Act, b: Act, n: nat)
    requires a.Fault? && b.Fault?
  {
    Done(a) <= n < |Puts(a.call)| && Puts(a.call)[n].value != Leaves(r, b, Puts(a.call)[n].field)
  }

  /** A store still to come differs from the published record. */
  ghost predicate Disturbs(r: Rec, a: Act, n: nat)
    requires a.Fault?
  {
    Done(a) <= n < |Puts(a.call)| && Puts(a.call)[n].value != Field(r, Puts(a.call)[n].field)
  }

  /** a has stored the magic and is about to change the version. */
  predicate Stamps(r: Rec, a: Act) {
    a.pc == Version && r.version != VERSION
  }

  ghost predicate Two(s: Sys, a: int, b: int) {
    Unfinished(s, a) && Unfinished(s, b) && a != b
  }

  ghost predicate Clash(s: Sys)
    requires Covered(s)
  {
    if s.rec.magic != MAGIC then
      exists a, b :: Two(s, a, b)
    else if Published(s.rec) then
      || (exists a :: Unfinished(s, a) && Stamps(s.rec, s.acts[a]))
      || (exists a, n :: Unfinished(s, a) && InWindow(s.acts[a].pc) && Disturbs(s.rec, s.acts[a], n))
    else
      || (exists a, b :: Two(s, a, b) && Stamps(s.rec, s.acts[a]))
      || (exists a, b, n :: Two(s, a, b) && Spoils(s.rec, s.acts[a], s.acts[b], n))
  }

  // ---- a clash leads there -----------------------------------------------------------

  ghost function After(s: Sys, k: nat): Sys
    requires k < |s.acts|
  {
    Stepped(s, k, StepAct(s.rec, s.acts[k]))
  }

  lemma WrongNow(s: Sys, k: nat)
    requires Unfinished(s, k) && WrongStep(s, After(s, k))
    ensures MayGoWrong(s)
  {
    var ss, es := [s, After(s, k)], [Step(k)];
    assert StepAt(ss, es, 0);
    assert GoesWrong(ss, es, s);
  }

  lemma WrongLater(s: Sys, k: nat)
    requires Unfinished(s, k) && MayGoWrong(After(s, k))
    ensures MayGoWrong(s)
  {
    var ss: seq<Sys>, es: seq<Event> :| GoesWrong(ss, es, After(s, k));
    var tt, fs := [s] + ss, [Step(k)] + es;
    forall i | 0 <= i < |fs| ensures fs[i].Step? && StepAt(tt, fs, i) {
      if i > 0 {
        assert es[i - 1].Step? && StepAt(ss, es, i - 1);
      }
    }
    assert GoesWrong(tt, fs, s);
  }

  /** A call still in its window with a store that differs runs on until it disturbs the record. */
  lemma {:induction false} DisturbsSooner(s: Sys, a: nat, n: nat)
    requires Unfinished(s, a) && s.acts[a].Fault? && InWindow(s.acts[a].pc) && Reachable(s.acts[a].call, s.acts[a].pc)
    requires Published(s.rec) && Disturbs(s.rec, s.acts[a], n)
    ensures MayGoWrong(s)
    decreases |Puts(s.acts[a].call)| - Done(s.acts[a])
  {
    StepIsPut(s.rec, s.acts[a]);
    var t := After(s, a);
    if t.rec != s.rec {
      WrongNow(s, a);
    } else {
      DisturbsSooner(t, a, n);
      WrongLater(s, a);
    }
  }

  lemma LeavesStep(r: Rec, r': Rec, ps: seq<Put>, n: nat, f: nat)
    requires n < |ps| && forall g :: Field(r', g) == if g == ps[n].field then ps[n].value else Field(r, g)
    requires forall i, j :: 0 <= i < j < |ps| ==> ps[i].field != ps[j].field
    ensures LeavesFrom(r', ps, n + 1, f) == LeavesFrom(r, ps, n, f)
  {
    if ps[n].field == f {
      NotAgain(r', ps, n + 1, f);
    } else {
      SameElsewhere(r, r', ps, n + 1, f);
    }
  }

  lemma {:induction false} NotAgain(r: Rec, ps: seq<Put>, n: nat, f: nat)
    requires forall i :: n <= i < |ps| ==> ps[i].field != f
    ensures LeavesFrom(r, ps, n, f) == Field(r, f)
    decreases |ps| - n
  {
    if n < |ps| {
      NotAgain(r, ps, n + 1, f);
    }
  }

  lemma {:induction false} SameElsewhere(r: Rec, r': Rec, ps: seq<Put>, n: nat, f: nat)
    requires Field(r', f) == Field(r, f)
    ensures LeavesFrom(r', ps, n, f) == LeavesFrom(r, ps, n, f)
    decreases |ps| - n
  {
    if n < |ps| {
      SameElsewhere(r, r', ps, n + 1, f);
    }
  }

  /** What a call leaves does not change while it runs. */
  lemma LeavesKept(r: Rec, a: Act, f: nat)
    requires a.Fault? && InWindow(a.pc) && Reachable(a.call, a.pc)
    ensures var n := StepAct(r, a); n.act.Fault? && Leaves(n.rec, n.act, f) == Leaves(r, a, f)
  {
    StepIsPut(r, a);
    forall i, j | 0 <= i < j < |Puts(a.call)| ensures Puts(a.call)[i].field != Puts(a.call)[j].field {
      DistinctFields(a.call, i, j);
    }
    LeavesStep(r, StepAct(r, a).rec, Puts(a.call), Done(a), f);
  }

  /** Let b publish first, then a spoils it. */
  lemma {:induction false} SpoilsLater(s: Sys, a: nat, b: nat, n: nat)
    requires Unfinished(s, a) && Unfinished(s, b) && a != b && s.acts[a].Fault? && s.acts[b].Fault?
    requires InWindow(s.acts[a].pc) && Reachable(s.acts[a].call, s.acts[a].pc)
    requires InWindow(s.acts[b].pc) && Reachable(s.acts[b].call, s.acts[b].pc) && s.acts[b].call.kind != 0
    requires s.rec.magic == MAGIC && s.rec.kind == 0 && Spoils(s.rec, s.acts[a], s.acts[b], n)
    ensures MayGoWrong(s)
    decreases |Puts(s.acts[b].call)| - Done(s.acts[b])
  {
    var x := s.acts[b];
    var t := After(s, b);
    var f := Puts(s.acts[a].call)[n].field;
    StepIsPut(s.rec, x);
    LeavesKept(s.rec, x, f);
    FieldAt(x.call, Done(x));
    PutsAre(x.call);
    assert Field(t.rec, 3) == t.rec.kind;
    if t.acts[b].pc == Halted {
      NotAgain(t.rec, Puts(x.call), |Puts(x.call)|, f);
      DisturbsSooner(t, a, n);
    } else {
      SpoilsLater(t, a, b, n);
    }
    WrongLater(s, b);
  }

  function Ahead(pc: Pc): nat {
    if pc == Begin || pc == Version then 2 else if pc == Test then 1 else 0
  }

  /** Bring both calls past their tests, which change nothing, and then as above. */
  lemma {:induction false} SpoilsEventually(s: Sys, a: nat, b: nat, n: nat)
    requires Clean(s) && Two(s, a, b) && !Stamps(s.rec, s.acts[a]) && !Stamps(s.rec, s.acts[b])
    requires s.rec.kind == 0 && Spoils(s.rec, s.acts[a], s.acts[b], n)
    ensures MayGoWrong(s)
    decreases Ahead(s.acts[a].pc) + Ahead(s.acts[b].pc)
  {
    if !InWindow(s.acts[a].pc) {
      CleanAfterTest(s, a);
      SpoilsEventually(After(s, a), a, b, n);
      WrongLater(s, a);
    } else if !InWindow(s.acts[b].pc) {
      CleanAfterTest(s, b);
      SpoilsEventually(After(s, b), a, b, n);
      WrongLater(s, b);
    } else {
      SpoilsLater(s, a, b, n);
    }
  }

  lemma CleanAfterTest(s: Sys, k: nat)
    requires Clean(s) && Unfinished(s, k) && !InWindow(s.acts[k].pc) && !Stamps(s.rec, s.acts[k])
    ensures var t := After(s, k);
            && Clean(t) && t.rec == s.rec && t.gone == s.gone && |t.acts| == |s.acts|
            && (forall j :: 0 <= j < |s.acts| && j != k ==> t.acts[j] == s.acts[j])
            && t.acts[k].Fault? && t.acts[k].call == s.acts[k].call
            && t.acts[k].pc != Version
            && (s.rec.kind == 0 ==> Done(t.acts[k]) == Done(s.acts[k]) && t.acts[k].pc != Halted
                                    && Ahead(t.acts[k].pc) < Ahead(s.acts[k].pc))
            && (s.rec.kind != 0 ==> !InWindow(t.acts[k].pc))
  {
    var t := After(s, k);
    assert Settled(s.rec, s.acts[k]);
    forall j | Unfinished(t, j) ensures t.acts[j].Fault? && Settled(t.rec, t.acts[j]) {
      assert Unfinished(s, j);
    }
  }

  /** b, left alone, will publish. */
  ghost predicate OnItsWay(r: Rec, b: Act)
    requires b.Fault?
  {
    && b.call.Valid() && b.call.kind != 0 && b.pc != Halted
    && if FoundNoMagic(b.pc) && r.magic != MAGIC then Progress(r, b)
       else r.magic == MAGIC && r.kind == 0 && (IsTest(b.pc) || (InWindow(b.pc) && Reachable(b.call, b.pc)))
  }

  /** a's next store would change any published record: the memset's first, or the version. */
  ghost predicate Lurks(r: Rec, a: Act)
    requires a.Fault?
  {
    a.pc == Clear(0) || Stamps(r, a)
  }

  lemma WayGoesOn(r: Rec, b: Act)
    requires b.Fault? && OnItsWay(r, b)
    ensures var n := StepAct(r, b);
            && n.act.Fault? && n.act.call == b.call && Rank(n.act.pc) < Rank(b.pc)
            && (if b.pc == Kind then Published(n.rec) else OnItsWay(n.rec, n.act))
            && (r.magic == MAGIC && b.pc != Version ==>
                n.rec.version == r.version && n.act.pc != Version && n.rec.magic == MAGIC)
  {
    if FoundNoMagic(b.pc) && r.magic != MAGIC {
      FaultStepKeeps(r, b.call, b.pc, b.before);
    }
  }

  /** Let b publish, then a destroys the record. */
  lemma {:induction false} LurkerStrikes(s: Sys, a: nat, b: nat)
    requires Two(s, a, b) && s.acts[a].Fault? && s.acts[b].Fault? && Lurks(s.rec, s.acts[a])
    requires OnItsWay(s.rec, s.acts[b])
    requires s.acts[a].pc == Version ==> s.rec.magic == MAGIC && s.acts[b].pc != Version
    ensures MayGoWrong(s)
    decreases Rank(s.acts[b].pc)
  {
    var t := After(s, b);
    WayGoesOn(s.rec, s.acts[b]);
    if s.acts[b].pc == Kind {
      WrongNow(t, a);
    } else {
      LurkerStrikes(t, a, b);
    }
    WrongLater(s, b);
  }

  /** Without the magic: one of the two has not begun; it looks, finds none, and waits while the
      other records its fault. */
  lemma BareGoesWrong(s: Sys, a: nat, b: nat)
    requires Bare(s) && Two(s, a, b)
    ensures MayGoWrong(s)
  {
    assert Wiping(s.rec, s.acts[a]) && Wiping(s.rec, s.acts[b]);
    if s.acts[a].pc == Begin {
      LurkerStrikes(After(s, a), a, b);
      WrongLater(s, a);
    } else {
      LurkerStrikes(After(s, b), b, a);
      WrongLater(s, b);
    }
  }

  lemma StampGoesWrong(s: Sys, a: nat, b: nat)
    requires Clean(s) && Two(s, a, b) && Stamps(s.rec, s.acts[a]) && !Published(s.rec)
    ensures MayGoWrong(s)
  {
    assert Settled(s.rec, s.acts[a]) && Settled(s.rec, s.acts[b]);
    LurkerStrikes(s, a, b);
  }

  lemma ClashGoesWrong(s: Sys)
    requires Covered(s) && Clash(s)
    ensures MayGoWrong(s)
  {
    if s.rec.magic != MAGIC {
      var a, b :| Two(s, a, b);
      BareGoesWrong(s, a, b);
    } else if Published(s.rec) {
      PublishedClash(s);
    } else if a, b :| Two(s, a, b) && Stamps(s.rec, s.acts[a]) {
      StampGoesWrong(s, a, b);
    } else {
      var a, b, n :| Two(s, a, b) && Spoils(s.rec, s.acts[a], s.acts[b], n);
      assert Two(s, b, a);
      SpoilsEventually(s, a, b, n);
    }
  }

  lemma PublishedClash(s: Sys)
    requires Clean(s) && Clash(s) && Published(s.rec)
    ensures MayGoWrong(s)
  {
    if a :| Unfinished(s, a) && Stamps(s.rec, s.acts[a]) {
      assert Settled(s.rec, s.acts[a]);
      WrongNow(s, a);
    } else {
      var a, n :| Unfinished(s, a) && InWindow(s.acts[a].pc) && Disturbs(s.rec, s.acts[a], n);
      assert Settled(s.rec, s.acts[a]);
      DisturbsSooner(s, a, n);
    }
  }

  // ---- nothing else does -------------------------------------------------------------

  /** In a covered state without a clash every step is harmless, and leads to such a state again. */
  lemma SafeStep(s: Sys, k: nat)
    requires Covered(s) && !Clash(s) && Unfinished(s, k)
    ensures Covered(After(s, k)) && !Clash(After(s, k)) && !WrongStep(s, After(s, k))
  {
    if s.rec.magic != MAGIC {
      assert Wiping(s.rec, s.acts[k]);
      AloneIsSafe(s, k);
    } else {
      assert Settled(s.rec, s.acts[k]);
      if Stamps(s.rec, s.acts[k]) {
        StampIsSafe(s, k);
      } else if !InWindow(s.acts[k].pc) {
        CleanAfterTest(s, k);
        TestIsSafe(s, k);
      } else if Published(s.rec) {
        PublishedIsSafe(s, k);
      } else {
        StoreKeepsClean(s, k);
        StoreIsSafe(s, k);
      }
    }
  }

  /** Without the magic and without a second call: it wipes the record and puts the magic there. */
  lemma AloneIsSafe(s: Sys, k: nat)
    requires Bare(s) && !Clash(s) && Unfinished(s, k) && s.acts[k].Fault? && Wiping(s.rec, s.acts[k])
    ensures Covered(After(s, k)) && !Clash(After(s, k)) && !WrongStep(s, After(s, k))
  {
    var t := After(s, k);
    FaultStepKeeps(s.rec, s.acts[k].call, s.acts[k].pc, s.acts[k].before);
    forall j | Unfinished(t, j) ensures j == k {
      if j != k {
        assert Two(s, j, k);
      }
    }
    OneIsCovered(t, k);
  }

  lemma OneIsCovered(t: Sys, k: nat)
    requires forall j :: Unfinished(t, j) ==> j == k
    requires Unfinished(t, k) && t.acts[k].Fault? && t.acts[k].call.Valid() && t.acts[k].call.kind != 0
    requires if t.rec.magic == MAGIC then !Published(t.rec) && IsTest(t.acts[k].pc) else Wiping(t.rec, t.acts[k])
    ensures Covered(t) && !Clash(t)
  {
  }

  /** The version is stored before anybody has published, with nobody else there. */
  lemma StampIsSafe(s: Sys, k: nat)
    requires Clean(s) && !Clash(s) && Unfinished(s, k) && s.acts[k].Fault? && Settled(s.rec, s.acts[k])
    requires Stamps(s.rec, s.acts[k])
    ensures Covered(After(s, k)) && !Clash(After(s, k)) && !WrongStep(s, After(s, k))
  {
    var t := After(s, k);
    forall j | Unfinished(t, j) ensures j == k {
      if j != k {
        assert Two(s, k, j);
      }
    }
    OneIsCovered(t, k);
  }

  lemma TestIsSafe(s: Sys, k: nat)
    requires Clean(s) && !Clash(s) && Unfinished(s, k) && !InWindow(s.acts[k].pc) && !Stamps(s.rec, s.acts[k])
    requires Clean(After(s, k))
    ensures !Clash(After(s, k))
  {
    var t := After(s, k);
    CleanAfterTest(s, k);
    NobodyStamps(s, k);
    if Published(s.rec) {
      forall a, n | Unfinished(t, a) && InWindow(t.acts[a].pc) ensures !Disturbs(t.rec, t.acts[a], n) {
        assert Unfinished(s, a) && t.acts[a] == s.acts[a];
      }
    } else {
      forall a, b, n | Two(t, a, b) ensures !Spoils(t.rec, t.acts[a], t.acts[b], n) {
        assert Two(s, a, b);
        assert !Spoils(s.rec, s.acts[a], s.acts[b], n);
      }
    }
  }

  /** A call other than the stamping one makes a step only where nobody stamps. */
  lemma NobodyStamps(s: Sys, k: nat)
    requires Clean(s) && !Clash(s) && Unfinished(s, k) && !Stamps(s.rec, s.acts[k])
    ensures forall a :: Unfinished(s, a) ==> !Stamps(s.rec, s.acts[a])
  {
    forall a | Unfinished(s, a) ensures !Stamps(s.rec, s.acts[a]) {
      assert a != k ==> Two(s, a, k);
    }
  }

  lemma PublishedIsSafe(s: Sys, k: nat)
    requires Clean(s) && !Clash(s) && Unfinished(s, k) && InWindow(s.acts[k].pc) && Published(s.rec)
    ensures Clean(After(s, k)) && !Clash(After(s, k)) && After(s, k).rec == s.rec
  {
    var t := After(s, k);
    var a := s.acts[k];
    assert Settled(s.rec, a);
    StepIsPut(s.rec, a);
    assert !Disturbs(s.rec, a, Done(a));
    SameFieldsSameRec(t.rec, s.rec);
    NobodyStamps(s, k);
    forall j | Unfinished(t, j) ensures t.acts[j].Fault? && Settled(t.rec, t.acts[j]) {
      assert Unfinished(s, j);
    }
    forall j, n | Unfinished(t, j) && InWindow(t.acts[j].pc) ensures !Disturbs(t.rec, t.acts[j], n) {
      assert Unfinished(s, j) && InWindow(s.acts[j].pc) && !Disturbs(s.rec, s.acts[j], n);
    }
  }

  /** The next store of k is what every other unfinished call leaves in that field. */
  lemma StoreAgrees(s: Sys, k: nat, j: nat)
    requires Clean(s) && !Clash(s) && !Published(s.rec) && Unfinished(s, k) && InWindow(s.acts[k].pc)
    requires Two(s, k, j)
    ensures Done(s.acts[k]) < |Puts(s.acts[k].call)|
    ensures var p := Puts(s.acts[k].call)[Done(s.acts[k])]; p.value == Leaves(s.rec, s.acts[j], p.field)
  {
    assert Settled(s.rec, s.acts[k]);
    StepIsPut(s.rec, s.acts[k]);
    assert !Spoils(s.rec, s.acts[k], s.acts[j], Done(s.acts[k]));
  }

  lemma StoreKeepsClean(s: Sys, k: nat)
    requires Clean(s) && !Clash(s) && !Published(s.rec) && Unfinished(s, k) && InWindow(s.acts[k].pc)
    ensures Clean(After(s, k))
  {
    var t := After(s, k);
    StepIsPut(s.rec, s.acts[k]);
    forall j | Unfinished(t, j) ensures t.acts[j].Fault? && Settled(t.rec, t.acts[j]) {
      assert Unfinished(s, j) && Settled(s.rec, s.acts[j]);
      if j == k {
        OwnKept(s.rec, s.acts[k]);
      } else if InWindow(s.acts[j].pc) {
        StoreAgrees(s, k, j);
        var a, p := s.acts[k], Puts(s.acts[k].call)[Done(s.acts[k])];
        OtherKept(s.rec, t.rec, s.acts[j], p);
      }
    }
  }

  lemma OwnKept(r: Rec, a: Act)
    requires a.Fault? && InWindow(a.pc) && Reachable(a.call, a.pc) && Kept(r, a)
    ensures var n := StepAct(r, a); n.act.Fault? && Kept(n.rec, n.act)
  {
    StepIsPut(r, a);
    var n := StepAct(r, a);
    forall i | 0 <= i < Done(n.act) && i < |Puts(a.call)|
      ensures Field(n.rec, Puts(a.call)[i].field) == Puts(a.call)[i].value
    {
      if i < Done(a) {
        DistinctFields(a.call, i, Done(a));
      }
    }
  }

  lemma OtherKept(r: Rec, r': Rec, b: Act, p: Put)
    requires b.Fault? && InWindow(b.pc) && Reachable(b.call, b.pc) && Kept(r, b) && p.value == Leaves(r, b, p.field)
    requires forall f :: Field(r', f) == if f == p.field then p.value else Field(r, f)
    ensures Kept(r', b)
  {
    forall i | 0 <= i < Done(b) && i < |Puts(b.call)|
      ensures Field(r', Puts(b.call)[i].field) == Puts(b.call)[i].value
    {
      if Puts(b.call)[i].field == p.field {
        forall j | Done(b) <= j < |Puts(b.call)| ensures Puts(b.call)[j].field != p.field {
          DistinctFields(b.call, i, j);
        }
        NotAgain(r, Puts(b.call), Done(b), p.field);
      }
    }
  }

  /** After a store by k: what another call leaves is as before, except that in the field stored to
      it may be the stored value. */
  lemma LeavesAfter(r: Rec, r': Rec, ps: seq<Put>, n: nat, p: Put, f: nat)
    requires forall g :: Field(r', g) == if g == p.field then p.value else Field(r, g)
    ensures f != p.field ==> LeavesFrom(r', ps, n, f) == LeavesFrom(r, ps, n, f)
    ensures LeavesFrom(r, ps, n, p.field) == p.value ==> LeavesFrom(r', ps, n, p.field) == p.value
    decreases |ps| - n
  {
    if n < |ps| {
      LeavesAfter(r, r', ps, n + 1, p, f);
    }
  }

  lemma StoreIsSafe(s: Sys, k: nat)
    requires Clean(s) && !Clash(s) && !Published(s.rec) && Unfinished(s, k)
    requires InWindow(s.acts[k].pc) && Clean(After(s, k))
    ensures !Clash(After(s, k)) && !WrongStep(s, After(s, k))
  {
    var t := After(s, k);
    var a := s.acts[k];
    assert Settled(s.rec, a);
    StepIsPut(s.rec, a);
    FieldAt(a.call, Done(a));
    PutsAre(a.call);
    assert Field(s.rec, 3) == s.rec.kind && Field(t.rec, 3) == t.rec.kind;
    NobodyStamps(s, k);
    if t.acts[k].pc == Halted {
      OwnKept(s.rec, a);
      ShowsIsAllPuts(t.rec, a.call);
      assert Live(s, k);
      forall j, n: nat | Unfinished(t, j) && InWindow(t.acts[j].pc) ensures !Disturbs(t.rec, t.acts[j], n) {
        assert Two(s, j, k);
        if Done(t.acts[j]) <= n < |Puts(t.acts[j].call)| {
          assert !Spoils(s.rec, s.acts[j], a, n);
          LeavesKept(s.rec, a, Puts(t.acts[j].call)[n].field);
        }
      }
    } else {
      forall x, y, n | Two(t, x, y) ensures !Spoils(t.rec, t.acts[x], t.acts[y], n) {
        PairStaysSafe(s, k, x, y, n);
      }
    }
  }

  lemma PairStaysSafe(s: Sys, k: nat, x: nat, y: nat, n: nat)
    requires Clean(s) && !Clash(s) && !Published(s.rec) && Unfinished(s, k) && InWindow(s.acts[k].pc)
    requires Two(s, x, y)
    ensures var t := After(s, k); t.acts[x].Fault? && t.acts[y].Fault? && !Spoils(t.rec, t.acts[x], t.acts[y], n)
  {
    var t := After(s, k);
    var a := s.acts[k];
    assert Settled(s.rec, a);
    StepIsPut(s.rec, a);
    var p := Puts(a.call)[Done(a)];
    var c := s.acts[x].call;
    if Done(t.acts[x]) <= n < |Puts(c)| {
      var f := Puts(c)[n].field;
      assert !Spoils(s.rec, s.acts[x], s.acts[y], n);
      if y == k {
        LeavesKept(s.rec, a, f);
      } else {
        LeavesAfter(s.rec, t.rec, Puts(s.acts[y].call), Done(s.acts[y]), p, f);
        StoreAgrees(s, k, y);
        if x == k {
          DistinctFields(c, Done(a), n);
        } else if f == p.field {
          assert !Spoils(s.rec, s.acts[x], a, n);
        }
      }
    }
  }

  lemma {:induction false} SafePath(ss: seq<Sys>, es: seq<Event>, i: nat)
    requires |ss| == |es| + 1 && i < |ss| && Covered(ss[0]) && !Clash(ss[0])
    requires forall j :: 0 <= j < |es| ==> es[j].Step? && StepAt(ss, es, j)
    ensures Covered(ss[i]) && !Clash(ss[i])
    ensures i > 0 ==> !WrongStep(ss[i - 1], ss[i])
  {
    if i > 0 {
      SafePath(ss, es, i - 1);
      assert es[i - 1].Step? && StepAt(ss, es, i - 1);
      SafeStep(ss[i - 1], es[i - 1].k);
    }
  }

  /** EXACTLY WHEN.  From any covered state, with no further calls: some order of the remaining
      steps changes a published record, or publishes one that shows no call, if and only if there
      is a clash.  Without the magic: two unfinished calls, whatever they store.  With it, before
      publication: two unfinished calls one of which has still to store something else than the
      other leaves, or has still to store the version; after it, a call past its test that has
      still to store something else than the record holds. */
  lemma GoesWrongIff(s: Sys)
    requires Covered(s)
    ensures MayGoWrong(s) <==> Clash(s)
  {
    if Clash(s) {
      ClashGoesWrong(s);
    } else {
      forall ss, es ensures !GoesWrong(ss, es, s) {
        NeverWrong(ss, es, s);
      }
    }
  }

  lemma NeverWrong(ss: seq<Sys>, es: seq<Event>, s: Sys)
    requires Covered(s) && !Clash(s)
    ensures !GoesWrong(ss, es, s)
  {
    if |ss| == |es| + 1 && |es| > 0 && ss[0] == s && forall j :: 0 <= j < |es| ==> es[j].Step? && StepAt(ss, es, j) {
      SafePath(ss, es, |es|);
    }
  }

  // ---- named calls -------------------------------------------------------------------

  predicate Differ(x: Call, y: Call)
    requires x.name.Some? && y.name.Some?
  {
    x.kind != y.kind || x.arg0 != y.arg0 || x.arg1 != y.arg1 || x.lr != y.lr
    || Shown(x.name.value) != Shown(y.name.value)
  }

  ghost predicate AllNamed(s: Sys) {
    forall k :: Unfinished(s, k) ==> s.acts[k].Fault? && s.acts[k].call.name.Some?
  }

  lemma {:induction false} LeavesAt(r: Rec, ps: seq<Put>, n: nat, m: nat)
    requires n <= m < |ps| && forall i, j :: 0 <= i < j < |ps| ==> ps[i].field != ps[j].field
    ensures LeavesFrom(r, ps, n, ps[m].field) == ps[m].value
    decreases m - n
  {
    if n < m {
      LeavesAt(r, ps, n + 1, m);
    }
  }

  /** A settled call leaves its own values, those already stored and those still to come. */
  lemma LeavesOwn(r: Rec, a: Act, m: nat)
    requires a.Fault? && Settled(r, a) && m < |Puts(a.call)|
    ensures Leaves(r, a, Puts(a.call)[m].field) == Puts(a.call)[m].value
  {
    forall i, j | 0 <= i < j < |Puts(a.call)| ensures Puts(a.call)[i].field != Puts(a.call)[j].field {
      DistinctFields(a.call, i, j);
    }
    if m >= Done(a) {
      LeavesAt(r, Puts(a.call), Done(a), m);
    } else {
      NotAgain(r, Puts(a.call), Done(a), Puts(a.call)[m].field);
    }
  }

  /** Calls that differ store different values in some field that both store. */
  lemma CommonField(x: Call, y: Call) returns (n: nat, m: nat)
    requires x.name.Some? && y.name.Some? && x.Valid() && y.Valid() && Differ(x, y)
    ensures n < |Puts(x)| && m < |Puts(y)|
    ensures Puts(x)[n].field == Puts(y)[m].field && Puts(x)[n].value != Puts(y)[m].value
  {
    PutsAre(x);
    PutsAre(y);
    if x.arg0 != y.arg0 {
      n, m := 0, 0;
    } else if x.arg1 != y.arg1 {
      n, m := 1, 1;
    } else if x.lr != y.lr {
      n, m := 2, 2;
    } else if x.kind != y.kind {
      n, m := |Puts(x)| - 1, |Puts(y)| - 1;
    } else {
      var i := FirstDifference(Shown(x.name.value), Shown(y.name.value));
      n, m := 3 + i, 3 + i;
    }
  }

  lemma {:induction false} FirstDifference(u: seq<Byte>, v: seq<Byte>) returns (i: nat)
    requires u != v && 0 !in u && 0 !in v
    ensures i <= |u| && i <= |v|
    ensures (if i < |u| then u[i] else 0) != (if i < |v| then v[i] else 0)
  {
    if u == [] || v == [] || u[0] != v[0] {
      i := 0;
    } else {
      assert u == [u[0]] + u[1..] && v == [v[0]] + v[1..];
      i := FirstDifference(u[1..], v[1..]);
      i := i + 1;
    }
  }

  /** EXACTLY WHEN, for calls that give a name, as all in the source do.  Without the magic, when two
      are unfinished, even two that do not differ.  With it, before publication: when two that
      are unfinished differ in type, arguments, return address or shown name, or one of two has
      still to store the version; after it, when a call past its test differs from the record. */
  lemma NamedCallsGoWrongIff(s: Sys)
    requires Covered(s) && AllNamed(s)
    ensures MayGoWrong(s) <==>
              if s.rec.magic != MAGIC then exists a, b :: Two(s, a, b)
              else if Published(s.rec) then
                exists a :: Unfinished(s, a) &&
                  (Stamps(s.rec, s.acts[a]) || (InWindow(s.acts[a].pc) && !Shows(s.rec, s.acts[a].call)))
              else
                exists a, b :: Two(s, a, b) && (Stamps(s.rec, s.acts[a]) || Differ(s.acts[a].call, s.acts[b].call))
  {
    GoesWrongIff(s);
    if Published(s.rec) {
      NamedPublished(s);
    } else if s.rec.magic == MAGIC {
      NamedOpen(s);
    }
  }

  lemma NamedPublished(s: Sys)
    requires Clean(s) && AllNamed(s) && Published(s.rec)
    ensures Clash(s) <==>
              exists a :: Unfinished(s, a) &&
                (Stamps(s.rec, s.acts[a]) || (InWindow(s.acts[a].pc) && !Shows(s.rec, s.acts[a].call)))
  {
    forall a | Unfinished(s, a) && InWindow(s.acts[a].pc)
      ensures !Shows(s.rec, s.acts[a].call) <==> exists n :: Disturbs(s.rec, s.acts[a], n)
    {
      DisturbsIff(s.rec, s.acts[a]);
    }
  }

  lemma NamedOpen(s: Sys)
    requires Clean(s) && AllNamed(s) && !Published(s.rec)
    ensures Clash(s) <==>
              exists a, b :: Two(s, a, b) && (Stamps(s.rec, s.acts[a]) || Differ(s.acts[a].call, s.acts[b].call))
  {
    forall a, b | Two(s, a, b)
      ensures Differ(s.acts[a].call, s.acts[b].call) <==>
                || (exists n :: Spoils(s.rec, s.acts[a], s.acts[b], n))
                || (exists n :: Spoils(s.rec, s.acts[b], s.acts[a], n))
    {
      SpoilsIff(s.rec, s.acts[a], s.acts[b]);
    }
    assert forall a, b :: Two(s, a, b) ==> Two(s, b, a);
  }

  lemma DisturbsIff(r: Rec, a: Act)
    requires a.Fault? && Settled(r, a) && InWindow(a.pc)
    ensures !Shows(r, a.call) <==> exists n :: Disturbs(r, a, n)
  {
    ShowsIsAllPuts(r, a.call);
    if !AllPuts(r, a.call) {
      var n :| 0 <= n < |Puts(a.call)| && Field(r, Puts(a.call)[n].field) != Puts(a.call)[n].value;
      assert Disturbs(r, a, n);
    }
  }

  lemma SpoilsIff(r: Rec, a: Act, b: Act)
    requires a.Fault? && b.Fault? && Settled(r, a) && Settled(r, b) && a.call.name.Some? && b.call.name.Some?
    ensures Differ(a.call, b.call) <==> (exists n :: Spoils(r, a, b, n)) || (exists n :: Spoils(r, b, a, n))
  {
    if Differ(a.call, b.call) {
      var n, m := CommonField(a.call, b.call);
      LeavesOwn(r, a, n);
      LeavesOwn(r, b, m);
      if n >= Done(a) {
        assert Spoils(r, a, b, n);
      } else {
        NotBothDone(r, a, b, n, m);
        assert Spoils(r, b, a, m);
      }
    } else {
      assert Puts(a.call) == Puts(b.call);
      forall n: nat ensures !Spoils(r, a, b, n) && !Spoils(r, b, a, n) {
        if n < |Puts(a.call)| {
          LeavesOwn(r, a, n);
          LeavesOwn(r, b, n);
        }
      }
    }
  }

  lemma NotBothDone(r: Rec, a: Act, b: Act, n: nat, m: nat)
    requires a.Fault? && b.Fault? && Settled(r, a) && Settled(r, b) && n < |Puts(a.call)| && m < |Puts(b.call)|
    requires Puts(a.call)[n].field == Puts(b.call)[m].field && Puts(a.call)[n].value != Puts(b.call)[m].value
    ensures n >= Done(a) || m >= Done(b)
  {
  }
}
