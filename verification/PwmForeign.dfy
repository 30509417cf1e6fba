/** When the report send returns can be that of another command: exactly when the look at the
    start failed on a report with these parameters, or a command with them was left over. */
module PwmForeign {
  import opened Options
  import opened PwmWeb

  /** A stretch of a run. */
  ghost predicate Path(ss: seq<Sys>, es: seq<Event>) {
    |ss| == |es| + 1 && forall i :: 0 <= i < |es| ==> StepAt(ss, es, i)
  }

  /** The (n + 1)-st answer is the last one given and carries another command's report. */
  ghost predicate Foreign(s: Sys, n: nat) {
    |s.answers| == n + 1 && s.answers[n].report.Some? && s.answers[n].report.value.of != s.answers[n].sender.id
  }

  ghost predicate Ends(ss: seq<Sys>, es: seq<Event>, s: Sys, n: nat) {
    Path(ss, es) && ss[0] == s && Foreign(ss[|es|], n)
  }

  ghost predicate MayAnswerForeign(s: Sys, n: nat) {
    exists ss, es :: Ends(ss, es, s, n)
  }

  // ---- it can happen -----------------------------------------------------------------

  lemma OneStepBack(s: Sys, s': Sys, e: Event, n: nat)
    requires Next(s, s', e) && MayAnswerForeign(s', n)
    ensures MayAnswerForeign(s, n)
  {
    var ss, es :| Ends(ss, es, s', n);
    var tt, fs := [s] + ss, [e] + es;
    forall i | 0 <= i < |fs| ensures StepAt(tt, fs, i) {
      if i > 0 {
        assert StepAt(ss, es, i - 1);
      }
    }
    assert Ends(tt, fs, s, n);
  }

  lemma AlreadyForeign(s: Sys, n: nat)
    requires Foreign(s, n)
    ensures MayAnswerForeign(s, n)
  {
    assert Ends([s], [], s, n);
  }

  /** A newer report with the right parameters, of another command, is in the file: the next
      read returns it. */
  lemma ReadForeign(s: Sys, w: Sender)
    requires s.lock == Some(w) && w.phase == Poll && OnFile(s, w.req)
    requires s.file.value.number > w.seq0 && s.file.value.of != w.id
    ensures MayAnswerForeign(s, |s.answers|)
  {
    var t := AfterPoll(s, w, s.file);
    assert Next(s, t, Polled(true));
    AlreadyForeign(t, |s.answers|);
    OneStepBack(s, t, Polled(true), |s.answers|);
  }

  /** A command with the sender's parameters but another id is still to be reported. */
  ghost predicate TwinAhead(s: Sys, w: Sender) {
    || (s.d.busy.Some? && s.d.busy.value.req == w.req && s.d.busy.value.id != w.id)
    || exists k :: 0 <= k < |s.d.pipe| && s.d.pipe[k].req == w.req && s.d.pipe[k].id != w.id
  }

  function Work(d: Pwmd): nat {
    2 * |d.pipe| + if d.busy.Some? then 1 else 0
  }

  lemma {:induction false} TwinAnswers(s: Sys, w: Sender)
    requires s.lock == Some(w) && w.phase == Poll && s.d.alive && w.seq0 <= s.d.number && TwinAhead(s, w)
    ensures MayAnswerForeign(s, |s.answers|)
    decreases Work(s.d)
  {
    if s.d.busy == None {
      var t := s.(d := s.d.(busy := Some(s.d.pipe[0]), pipe := s.d.pipe[1..]));
      TakeKeepsTwin(s, t, w);
      TwinAnswers(t, w);
      OneStepBack(s, t, Take, |s.answers|);
    } else {
      var c := s.d.busy.value;
      if c.req == w.req && c.id != w.id {
        var t := AfterFinish(s, c, true, true);
        assert Next(s, t, Finish(true, true));
        ReadForeign(t, w);
        OneStepBack(s, t, Finish(true, true), |s.answers|);
      } else {
        var t := AfterFinish(s, c, true, false);
        assert Next(s, t, Finish(true, false));
        TwinAnswers(t, w);
        OneStepBack(s, t, Finish(true, false), |s.answers|);
      }
    }
  }

  lemma TakeKeepsTwin(s: Sys, t: Sys, w: Sender)
    requires s.d.alive && s.d.busy == None && TwinAhead(s, w)
    requires |s.d.pipe| > 0 ==> t == s.(d := s.d.(busy := Some(s.d.pipe[0]), pipe := s.d.pipe[1..]))
    ensures |s.d.pipe| > 0 && Next(s, t, Take) && TwinAhead(t, w)
  {
    var k :| 0 <= k < |s.d.pipe| && s.d.pipe[k].req == w.req && s.d.pipe[k].id != w.id;
    if k > 0 {
      assert t.d.pipe[k - 1] == s.d.pipe[k];
    }
  }

  // ---- it cannot happen otherwise ----------------------------------------------------

  /** The sender of s has not been answered yet, or has been answered with its marks unchanged. */
  ghost predicate SameSender(s: Sys, n: nat, lost: bool, twin: bool) {
    && |s.answers| >= n
    && (|s.answers| == n ==>
          && (InPhase(s, Write) || InPhase(s, Poll))
          && s.lock.value.lost == lost && s.lock.value.twin == twin)
    && (|s.answers| > n ==> s.answers[n].sender.lost == lost && s.answers[n].sender.twin == twin)
  }

  lemma {:induction false} PathKeeps(ss: seq<Sys>, es: seq<Event>, n: nat, lost: bool, twin: bool, i: nat)
    requires Path(ss, es) && Inv(ss[0]) && SameSender(ss[0], n, lost, twin) && i < |ss|
    ensures Inv(ss[i]) && SameSender(ss[i], n, lost, twin)
  {
    if i > 0 {
      PathKeeps(ss, es, n, lost, twin, i - 1);
      assert StepAt(ss, es, i - 1);
      StepKeepsInv(ss[i - 1], ss[i], es[i - 1]);
      SenderKept(ss[i - 1], ss[i], es[i - 1], n, lost, twin);
    }
  }

  lemma SenderKept(s: Sys, s': Sys, e: Event, n: nat, lost: bool, twin: bool)
    requires Next(s, s', e) && SameSender(s, n, lost, twin)
    ensures SameSender(s', n, lost, twin)
  {
  }

  lemma NeverForeign(ss: seq<Sys>, es: seq<Event>, t: Sys, n: nat)
    requires Inv(t) && SameSender(t, n, false, false)
    ensures !Ends(ss, es, t, n)
  {
    if Path(ss, es) && ss[0] == t {
      PathKeeps(ss, es, n, false, false, |es|);
      HonestIsNotForeign(ss[|es|], n);
    }
  }

  lemma HonestIsNotForeign(s: Sys, n: nat)
    requires Inv(s) && SameSender(s, n, false, false)
    ensures !Foreign(s, n)
  {
    assert |s.answers| > n ==> Honest(s.answers[n]);
  }

  /** A FOREIGN ANSWER IS POSSIBLE EXACTLY THEN.  From any state in which send looks at the file, with
      pwmd alive: some continuation answers this call with another command's report if and only
      if the look failed while the file held a report with these parameters, or a command with
      these parameters was still in the pipe or being worked on. */
  lemma ForeignAnswerIff(s: Sys, ok: bool)
    requires Inv(s) && InPhase(s, Look) && s.d.alive
    ensures var w := s.lock.value; var t := AfterLook(s, w, if ok then s.file else None);
            MayAnswerForeign(t, |s.answers|) <==> (!ok && OnFile(s, w.req)) || Pending(s.d, w.req)
  {
    var w := s.lock.value;
    var t := AfterLook(s, w, if ok then s.file else None);
    assert Next(s, t, Looked(ok));
    StepKeepsInv(s, t, Looked(ok));
    if !ok && OnFile(s, w.req) {
      StaleAnswers(t);
    } else if Pending(s.d, w.req) {
      LeftoverAnswers(t);
    } else {
      forall ss, es ensures !Ends(ss, es, t, |s.answers|) {
        NeverForeign(ss, es, t, |s.answers|);
      }
    }
  }

  /** The failed look: the command is written, and the old report answers it. */
  lemma StaleAnswers(t: Sys)
    requires Inv(t) && InPhase(t, Write) && t.d.alive && t.lock.value.seq0 == 0 && OnFile(t, t.lock.value.req)
    ensures MayAnswerForeign(t, |t.answers|)
  {
    var u := AfterWrite(t, t.lock.value, true, true);
    assert Next(t, u, Written(true, true));
    ReadForeign(u, u.lock.value);
    OneStepBack(t, u, Written(true, true), |t.answers|);
  }

  /** The left-over command: it is reported first, and its report answers. */
  lemma LeftoverAnswers(t: Sys)
    requires Inv(t) && InPhase(t, Write) && t.d.alive && Pending(t.d, t.lock.value.req)
    ensures MayAnswerForeign(t, |t.answers|)
  {
    var u := AfterWrite(t, t.lock.value, true, true);
    assert Next(t, u, Written(true, true));
    if t.d.busy.Some? && t.d.busy.value.req == t.lock.value.req {
      assert TwinAhead(u, u.lock.value);
    } else {
      var k :| 0 <= k < |t.d.pipe| && t.d.pipe[k].req == t.lock.value.req;
      assert u.d.pipe[k] == t.d.pipe[k];
      assert TwinAhead(u, u.lock.value);
    }
    TwinAnswers(u, u.lock.value);
    OneStepBack(t, u, Written(true, true), |t.answers|);
  }

  // ---- runs that do ------------------------------------------------------------------

  ghost predicate Reached(ss: seq<Sys>, es: seq<Event>, s: Sys) {
    Run(ss, es) && ss[|es|] == s
  }

  lemma RunExtends(ss: seq<Sys>, es: seq<Event>, s: Sys, t: Sys, e: Event) returns (tt: seq<Sys>, fs: seq<Event>)
    requires Reached(ss, es, s) && Next(s, t, e)
    ensures Reached(tt, fs, t)
  {
    tt, fs := ss + [t], es + [e];
    forall i | 0 <= i < |fs| ensures StepAt(tt, fs, i) {
      if i < |es| {
        assert StepAt(ss, es, i);
      }
    }
  }

  /** send(r) up to the first poll, with a look that works or fails, by itself. */
  lemma Sends(ss: seq<Sys>, es: seq<Event>, s: Sys, r: Req, ok: bool) returns (tt: seq<Sys>, fs: seq<Event>, t: Sys)
    requires Reached(ss, es, s) && s.lock == None && s.d.alive
    ensures Reached(tt, fs, t)
    ensures var seq0 := if ok && s.file.Some? then s.file.value.number else 0;
            t == s.(lock := Some(Sender(r, Poll, seq0, seq0, s.next, (!ok || s.file == None) && OnFile(s, r),
                                         Pending(s.d, r), false)),
                    next := s.next + 1, d := s.d.(pipe := s.d.pipe + [Cmd(s.next, r)]))
  {
    var w := Sender(r, Check, 0, 0, 0, false, false, false);
    var s1 := s.(lock := Some(w));
    var s2 := Moved(s1, Look);
    var s3 := AfterLook(s2, s2.lock.value, if ok then s.file else None);
    t := AfterWrite(s3, s3.lock.value, true, true);
    var q1, f1 := RunExtends(ss, es, s, s1, Acquire(r));
    var q2, f2 := RunExtends(q1, f1, s1, s2, CheckAlive(false));
    var q3, f3 := RunExtends(q2, f2, s2, s3, Looked(ok));
    tt, fs := RunExtends(q3, f3, s3, t, Written(true, true));
  }

  /** pwmd works off the first command waiting, successfully. */
  lemma Works(ss: seq<Sys>, es: seq<Event>, s: Sys) returns (tt: seq<Sys>, fs: seq<Event>, t: Sys)
    requires Reached(ss, es, s) && s.d.alive && s.d.busy == None && |s.d.pipe| > 0
    ensures Reached(tt, fs, t)
    ensures t == AfterFinish(s.(d := s.d.(pipe := s.d.pipe[1..])), s.d.pipe[0], true, true)
  {
    var u := s.(d := s.d.(busy := Some(s.d.pipe[0]), pipe := s.d.pipe[1..]));
    t := AfterFinish(u, s.d.pipe[0], true, true);
    var q, f := RunExtends(ss, es, s, u, Take);
    tt, fs := RunExtends(q, f, u, t, Finish(true, true));
  }

  const STARTED: Sys := Sys(None, Pwmd(true, 0, [], None), None, map[], 0, [])

  /** A run of the server, from its start, in which the second send is answered with the report of
      the first one's command. */
  ghost predicate AnswersForeign(ss: seq<Sys>, es: seq<Event>, r: Req, lost: bool, twin: bool) {
    && Run(ss, es) && Foreign(ss[|es|], 1)
    && var a := ss[|es|].answers[1];
       a.sender.req == r && a.report.value.of == 0 && a.sender.lost == lost && a.sender.twin == twin
  }

  /** THE SAME BUTTON TWICE.  The first send gives up waiting; the second, with the same parameters,
      gets the report of the first one's command, whatever the parameters. */
  lemma LeftoverRun(r: Req)
    ensures exists ss, es :: AnswersForeign(ss, es, r, false, true)
  {
    assert Reached([STARTED], [], STARTED);
    var s1, e1, sent := Sends([STARTED], [], STARTED, r, true);
    var failed := Failed(sent);
    var s2, e2 := RunExtends(s1, e1, sent, failed, GaveUp);
    assert failed.d.pipe[0] == Cmd(0, r);
    var s3, e3, again := Sends(s2, e2, failed, r, true);
    var s4, e4, done := Works(s3, e3, again);
    var answered := AfterPoll(done, done.lock.value, done.file);
    var s5, e5 := RunExtends(s4, e4, done, answered, Polled(true));
    assert AnswersForeign(s5, e5, r, false, true);
  }

  /** ONE FAILED READ.  The first send is answered; the look of the second fails, and the report
      still in the file answers it at once. */
  lemma FailedLookRun(r: Req)
    ensures exists ss, es :: AnswersForeign(ss, es, r, true, false)
  {
    assert Reached([STARTED], [], STARTED);
    var s1, e1, sent := Sends([STARTED], [], STARTED, r, true);
    var s2, e2, done := Works(s1, e1, sent);
    var first := AfterPoll(done, done.lock.value, done.file);
    var s3, e3 := RunExtends(s2, e2, done, first, Polled(true));
    var s4, e4, again := Sends(s3, e3, first, r, false);
    var answered := AfterPoll(again, again.lock.value, again.file);
    var s5, e5 := RunExtends(s4, e4, again, answered, Polled(true));
    assert AnswersForeign(s5, e5, r, true, false);
  }
}
