/** Runs from power-up in which two fault calls that take turns spoil the record. */
module FaultWitness {
  import opened Arm
  import opened Options
  import opened FaultRecord
  import opened FaultRuns
  import opened FaultRace

  // ---- reaching a state --------------------------------------------------------------

  ghost predicate Reached(ss: seq<Sys>, es: seq<Event>, s: Sys) {
    Run(ss, es) && ss[|es|] == s
  }

  lemma RunExtends(ss: seq<Sys>, es: seq<Event>, s: Sys, t: Sys, e: Event) returns (tt: seq<Sys>, fs: seq<Event>)
    requires Reached(ss, es, s) && Next(s, t, e)
    ensures Reached(tt, fs, t) && fs == es + [e]
  {
    tt, fs := ss + [t], es + [e];
    forall i | 0 <= i < |fs| ensures StepAt(tt, fs, i) {
      if i < |es| {
        assert StepAt(ss, es, i);
      }
    }
  }

  function InitSteps(pc: Pc): nat {
    match pc
    case Begin => 40
    case Clear(k) => if k < 23 then 39 - k else 0
    case Version => 4
    case Boots => 3
    case Quiet => 2
    case Magic => 1
    case _ => 0
  }

  /** r8_blackbox_init, alone, runs to its end. */
  lemma {:induction false} InitCompletes(ss: seq<Sys>, es: seq<Event>, s: Sys)
    returns (tt: seq<Sys>, fs: seq<Event>, t: Sys)
    requires Reached(ss, es, s) && |s.acts| == 1 && s.gone == {} && s.acts[0].Init?
    requires InitSteps(s.acts[0].pc) > 0 && (s.acts[0].pc == Magic ==> s.rec.kind == 0)
    ensures Reached(tt, fs, t) && |t.acts| == 1 && t.gone == {} && t.acts[0].Init? && t.acts[0].pc == Halted
    ensures t.rec.magic == MAGIC && t.rec.kind == 0
    decreases InitSteps(s.acts[0].pc)
  {
    var u := After(s, 0);
    var uu, gs := RunExtends(ss, es, s, u, Step(0));
    if s.acts[0].pc == Magic {
      tt, fs, t := uu, gs, u;
    } else {
      tt, fs, t := InitCompletes(uu, gs, u);
    }
  }

  /** Power-up, initialisation, and two calls: both have entered, neither has made a step. */
  lemma TwoCalls(a: Call, b: Call) returns (ss: seq<Sys>, es: seq<Event>, s: Sys)
    requires a.Valid() && b.Valid()
    ensures Reached(ss, es, s) && Enter(a) in es && Enter(b) in es
    ensures |s.acts| == 3 && s.gone == {} && s.rec.magic == MAGIC && s.rec.kind == 0
            && s.acts[0].pc == Halted && s.acts[0].Init?
    ensures s.acts[1] == Fault(a, Begin, NO_NAME) && s.acts[2] == Fault(b, Begin, NO_NAME)
  {
    var cold := Sys(Rec(0, 0, 0, 0, 0, 0, 0, NO_NAME), [], {}, None, NO_NAME);
    assert Reached([cold], [], cold);
    var started := cold.(acts := [Init(Begin, 0)]);
    var s1, e1 := RunExtends([cold], [], cold, started, StartInit);
    var s2, e2, ready := InitCompletes(s1, e1, started);
    var one := ready.(acts := ready.acts + [Fault(a, Begin, NO_NAME)]);
    var s3, e3 := RunExtends(s2, e2, ready, one, Enter(a));
    s := one.(acts := one.acts + [Fault(b, Begin, NO_NAME)]);
    ss, es := RunExtends(s3, e3, one, s, Enter(b));
  }

  lemma TwoCallsAreClean(a: Call, b: Call, s: Sys)
    requires a.Valid() && b.Valid() && a.kind != 0 && b.kind != 0
    requires |s.acts| == 3 && s.gone == {} && s.rec.magic == MAGIC && s.acts[0].pc == Halted
    requires s.acts[1] == Fault(a, Begin, NO_NAME) && s.acts[2] == Fault(b, Begin, NO_NAME)
    ensures Clean(s) && Unfinished(s, 1) && Unfinished(s, 2)
    ensures a.name.Some? && b.name.Some? ==> AllNamed(s)
  {
  }

  // ---- a record that changes or shows nobody -----------------------------------------

  lemma RunGoesOn(ss: seq<Sys>, es: seq<Event>, s: Sys) returns (tt: seq<Sys>, fs: seq<Event>)
    requires Reached(ss, es, s) && MayGoWrong(s)
    ensures Run(tt, fs) && |fs| > |es| && WrongStep(tt[|fs| - 1], tt[|fs|]) && es <= fs
  {
    var uu: seq<Sys>, gs: seq<Event> :| GoesWrong(uu, gs, s);
    tt, fs := ss + uu[1..], es + gs;
    forall i | 0 <= i < |fs| ensures StepAt(tt, fs, i) {
      if i < |es| {
        assert StepAt(ss, es, i);
      } else {
        assert StepAt(uu, gs, i - |es|);
      }
    }
    assert tt[|fs| - 1] == uu[|gs| - 1] && tt[|fs|] == uu[|gs|];
  }

  /** RESUMED CALLS TEAR THE RECORD.  For any two named calls that differ there is a run from
      power-up, through the initialisation, in which both are made, take turns, and in the end
      change a published record or publish one that shows neither. */
  lemma ResumedCallsTear(a: Call, b: Call)
    requires a.Valid() && b.Valid() && a.kind != 0 && b.kind != 0 && a.name.Some? && b.name.Some? && Differ(a, b)
    ensures exists ss, es ::
              Run(ss, es) && |es| > 0 && Enter(a) in es && Enter(b) in es && WrongStep(ss[|es| - 1], ss[|es|])
  {
    var ss, es, s := TwoCalls(a, b);
    TwoCallsAreClean(a, b, s);
    assert Two(s, 1, 2) && Differ(s.acts[1].call, s.acts[2].call);
    NamedCallsGoWrongIff(s);
    var tt, fs := RunGoesOn(ss, es, s);
  }

  /** Power-up and two calls before any initialisation. */
  lemma TwoEarlyCalls(a: Call, b: Call) returns (ss: seq<Sys>, es: seq<Event>, s: Sys)
    requires a.Valid() && b.Valid()
    ensures Reached(ss, es, s) && Enter(a) in es && Enter(b) in es
    ensures s.acts == [Fault(a, Begin, NO_NAME), Fault(b, Begin, NO_NAME)] && s.gone == {} && s.rec.magic != MAGIC
  {
    var cold := Sys(Rec(0, 0, 0, 0, 0, 0, 0, NO_NAME), [], {}, None, NO_NAME);
    assert Reached([cold], [], cold);
    var one := cold.(acts := [Fault(a, Begin, NO_NAME)]);
    var s1, e1 := RunExtends([cold], [], cold, one, Enter(a));
    s := one.(acts := [Fault(a, Begin, NO_NAME), Fault(b, Begin, NO_NAME)]);
    ss, es := RunExtends(s1, e1, one, s, Enter(b));
  }

  lemma EarlyCallsClash(a: Call, b: Call, s: Sys)
    requires a.Valid() && b.Valid() && a.kind != 0 && b.kind != 0
    requires s.acts == [Fault(a, Begin, NO_NAME), Fault(b, Begin, NO_NAME)] && s.gone == {} && s.rec.magic != MAGIC
    ensures MayGoWrong(s)
  {
    assert Bare(s) && Two(s, 0, 1);
    GoesWrongIff(s);
  }

  /** BEFORE THE INITIALISATION ANY TWO CALLS DO, even two that are the same: both find no magic, one
      records its fault, and the other wipes it. */
  lemma CallsBeforeInitTear(a: Call, b: Call)
    requires a.Valid() && b.Valid() && a.kind != 0 && b.kind != 0
    ensures exists ss, es ::
              Run(ss, es) && |es| > 0 && Enter(a) in es && Enter(b) in es && WrongStep(ss[|es| - 1], ss[|es|])
  {
    var ss, es, s := TwoEarlyCalls(a, b);
    EarlyCallsClash(a, b, s);
    var tt, fs := RunGoesOn(ss, es, s);
  }

  const MALLOC: seq<Byte> := [0x6d, 0x61, 0x6c, 0x6c, 0x6f, 0x63]

  /** What vApplicationMallocFailedHook passes: the free heap, the least it ever was, and the
      address it was called from. */
  function MallocFailed(free: Word, least: Word, lr: Word): Call {
    Call(2, free, least, lr, Some(MALLOC))
  }

  /** The allocation hook does this, in two tasks of equal priority whose failures find different
      heap figures or come from different places. */
  lemma MallocCallsTear(free1: Word, least1: Word, lr1: Word, free2: Word, least2: Word, lr2: Word)
    requires free1 != free2 || least1 != least2 || lr1 != lr2
    ensures exists ss, es ::
              && Run(ss, es) && |es| > 0 && WrongStep(ss[|es| - 1], ss[|es|])
              && Enter(MallocFailed(free1, least1, lr1)) in es && Enter(MallocFailed(free2, least2, lr2)) in es
  {
    ResumedCallsTear(MallocFailed(free1, least1, lr1), MallocFailed(free2, least2, lr2));
  }

  // ---- a record of two calls ---------------------------------------------------------

  /** From s to t call k has run on alone until it has made n of its stores. */
  ghost predicate Advanced(s: Sys, t: Sys, k: nat, n: nat)
    requires k < |s.acts| && s.acts[k].Fault?
  {
    && |t.acts| == |s.acts| && t.gone == s.gone && t.rec.magic == s.rec.magic
    && (forall j :: 0 <= j < |s.acts| && j != k ==> t.acts[j] == s.acts[j])
    && t.acts[k].Fault? && t.acts[k].call == s.acts[k].call && Done(t.acts[k]) == n
    && (n < |Puts(s.acts[k].call)| ==> InWindow(t.acts[k].pc) && Reachable(t.acts[k].call, t.acts[k].pc))
    && (forall f :: Untouched(s.acts[k], n, f) ==> Field(t.rec, f) == Field(s.rec, f))
    && (forall i :: Done(s.acts[k]) <= i < n && i < |Puts(s.acts[k].call)| ==>
          Field(t.rec, Puts(s.acts[k].call)[i].field) == Puts(s.acts[k].call)[i].value)
  }

  lemma {:induction false} AdvanceTo(ss: seq<Sys>, es: seq<Event>, s: Sys, k: nat, n: nat)
    returns (tt: seq<Sys>, fs: seq<Event>, t: Sys)
    requires Reached(ss, es, s) && Unfinished(s, k) && s.acts[k].Fault?
    requires InWindow(s.acts[k].pc) && Reachable(s.acts[k].call, s.acts[k].pc)
    requires Done(s.acts[k]) <= n <= |Puts(s.acts[k].call)|
    ensures Reached(tt, fs, t) && es <= fs && Advanced(s, t, k, n)
    decreases n - Done(s.acts[k])
  {
    var a := s.acts[k];
    if Done(a) == n {
      tt, fs, t := ss, es, s;
    } else {
      AdvanceOne(s, k);
      var u := After(s, k);
      var uu, gs := RunExtends(ss, es, s, u, Step(k));
      if Done(a) + 1 == n {
        tt, fs, t := uu, gs, u;
      } else {
        tt, fs, t := AdvanceTo(uu, gs, u, k, n);
        AdvanceOn(s, u, t, k, n);
      }
    }
  }

  lemma AdvanceOne(s: Sys, k: nat)
    requires Unfinished(s, k) && s.acts[k].Fault?
    requires InWindow(s.acts[k].pc) && Reachable(s.acts[k].call, s.acts[k].pc)
             && Done(s.acts[k]) < |Puts(s.acts[k].call)|
    ensures Advanced(s, After(s, k), k, Done(s.acts[k]) + 1)
  {
    StepIsPut(s.rec, s.acts[k]);
    forall f | Untouched(s.acts[k], Done(s.acts[k]) + 1, f) ensures Field(After(s, k).rec, f) == Field(s.rec, f) {
      assert Puts(s.acts[k].call)[Done(s.acts[k])].field != f;
    }
  }

  lemma AdvanceOn(s: Sys, u: Sys, t: Sys, k: nat, n: nat)
    requires k < |s.acts| && s.acts[k].Fault? && Done(s.acts[k]) + 1 < n <= |Puts(s.acts[k].call)|
    requires Advanced(s, u, k, Done(s.acts[k]) + 1) && Advanced(u, t, k, n)
    ensures Advanced(s, t, k, n)
  {
    var a, d := s.acts[k], Done(s.acts[k]);
    StoresAreDistinct(u.acts[k], n);
    assert Field(t.rec, Puts(a.call)[d].field) == Field(u.rec, Puts(a.call)[d].field);
    forall f | Untouched(a, n, f) ensures Field(t.rec, f) == Field(s.rec, f) {
      assert Untouched(a, d + 1, f) && Untouched(u.acts[k], n, f);
    }
  }

  /** Field f is not among the stores of a up to the n-th. */
  ghost predicate Untouched(a: Act, n: nat, f: nat)
    requires a.Fault?
  {
    forall i :: Done(a) <= i < n && i < |Puts(a.call)| ==> Puts(a.call)[i].field != f
  }

  lemma StoresAreDistinct(a: Act, n: nat)
    requires a.Fault? && 0 < Done(a) <= |Puts(a.call)|
    ensures Untouched(a, n, Puts(a.call)[Done(a) - 1].field)
  {
    forall i | Done(a) <= i < n && i < |Puts(a.call)| ensures Puts(a.call)[i].field != Puts(a.call)[Done(a) - 1].field {
      DistinctFields(a.call, i, Done(a) - 1);
    }
  }

  /** Past Begin and Test, with the record still open. */
  lemma PassTests(ss: seq<Sys>, es: seq<Event>, s: Sys, k: nat) returns (tt: seq<Sys>, fs: seq<Event>, t: Sys)
    requires Reached(ss, es, s) && Unfinished(s, k) && s.acts[k].Fault? && s.acts[k].pc == Begin
    requires s.rec.magic == MAGIC && s.rec.kind == 0
    ensures Reached(tt, fs, t) && es <= fs && t.rec == s.rec && t.gone == s.gone && |t.acts| == |s.acts|
    ensures forall j :: 0 <= j < |s.acts| && j != k ==> t.acts[j] == s.acts[j]
    ensures t.acts[k].Fault? && t.acts[k].call == s.acts[k].call && t.acts[k].pc == Arg0
  {
    var u := After(s, k);
    var uu, gs := RunExtends(ss, es, s, u, Step(k));
    t := After(u, k);
    tt, fs := RunExtends(uu, gs, u, t, Step(k));
  }

  /** Both calls are made, and the published record shows neither. */
  ghost predicate PublishesMixture(ss: seq<Sys>, es: seq<Event>, a: Call, b: Call) {
    && Run(ss, es) && Enter(a) in es && Enter(b) in es
    && Published(ss[|es|].rec) && !Shows(ss[|es|].rec, a) && !Shows(ss[|es|].rec, b)
  }

  /** A MIXED RECORD.  Two calls that differ in their n-th store and in a later one can publish a
      record whose field of the n-th store is b's and whose later field is a's. */
  lemma MixedRecord(a: Call, b: Call, n: nat, m: nat)
    requires a.Valid() && b.Valid() && a.kind != 0 && b.kind != 0 && n < m < |Puts(a)| && m < |Puts(b)|
    requires Puts(a)[n].field == Puts(b)[n].field && Puts(a)[n].value != Puts(b)[n].value
    requires Puts(a)[m].field == Puts(b)[m].field && Puts(a)[m].value != Puts(b)[m].value
    ensures exists ss, es :: PublishesMixture(ss, es, a, b)
  {
    var s0, e0, s := TwoCalls(a, b);
    var s1, e1, t1 := PassTests(s0, e0, s, 1);
    var s2, e2, t2 := PassTests(s1, e1, t1, 2);
    var s3, e3, t3 := AdvanceTo(s2, e2, t2, 1, n + 1);
    var s4, e4, t4 := AdvanceTo(s3, e3, t3, 2, n + 1);
    var s5, e5, t5 := AdvanceTo(s4, e4, t4, 1, |Puts(a)|);
    MixtureIsNeither(t2, t3, t4, t5, a, b, n, m);
    assert PublishesMixture(s5, e5, a, b);
  }

  /** Call 1 makes n + 1 stores, then call 2, then call 1 the rest. */
  lemma MixtureIsNeither(s: Sys, t: Sys, u: Sys, v: Sys, a: Call, b: Call, n: nat, m: nat)
    requires |s.acts| == 3 && s.acts[1].Fault? && s.acts[2].Fault? && s.acts[1].call == a && s.acts[2].call == b
    requires Done(s.acts[1]) == 0 && Done(s.acts[2]) == 0 && s.rec.magic == MAGIC && a.kind != 0
    requires n < m < |Puts(a)| && m < |Puts(b)|
    requires Puts(a)[n].field == Puts(b)[n].field && Puts(a)[n].value != Puts(b)[n].value
    requires Puts(a)[m].field == Puts(b)[m].field && Puts(a)[m].value != Puts(b)[m].value
    requires Advanced(s, t, 1, n + 1) && Advanced(t, u, 2, n + 1) && Advanced(u, v, 1, |Puts(a)|)
    ensures Published(v.rec) && !Shows(v.rec, a) && !Shows(v.rec, b)
  {
    forall i | n < i < |Puts(a)| ensures Puts(a)[i].field != Puts(a)[n].field {
      DistinctFields(a, i, n);
    }
    assert Untouched(u.acts[1], |Puts(a)|, Puts(a)[n].field);
    PutsAre(a);
    assert Field(v.rec, Puts(a)[|Puts(a)| - 1].field) == a.kind;
    NotShown(v.rec, a, n);
    NotShown(v.rec, b, m);
  }

  lemma NotShown(r: Rec, c: Call, n: nat)
    requires n < |Puts(c)| && Field(r, Puts(c)[n].field) != Puts(c)[n].value
    ensures !Shows(r, c)
  {
    ShowsIsAllPuts(r, c);
  }

  /** For the allocation hook: when both heap figures differ, a record with the free heap of one
      failure and the least heap of the other. */
  lemma MallocRecordsMix(free1: Word, least1: Word, lr1: Word, free2: Word, least2: Word, lr2: Word)
    requires free1 != free2 && least1 != least2
    ensures var a, b := MallocFailed(free1, least1, lr1), MallocFailed(free2, least2, lr2);
            exists ss, es :: PublishesMixture(ss, es, a, b)
  {
    var a, b := MallocFailed(free1, least1, lr1), MallocFailed(free2, least2, lr2);
    PutsAre(a);
    PutsAre(b);
    MixedRecord(a, b, 0, 1);
  }
}
