/** The web server's Daemon.send against pwmd's command loop: many threads behind one lock, a
    pipe, one report file that only holds the last report, and restarts that reset seq. */
module PwmWeb {
  import opened Options

  // ---- state -------------------------------------------------------------------------

  /** The four parameters of a command, as sent on the pipe and repeated in the report. */
  datatype Req = Req(gpt: nat, ch: char, freqHz: nat, dutyPermille: nat)

  /** `id` numbers the commands ever written; it is history, the pipe carries only the text. */
  datatype Cmd = Cmd(id: nat, req: Req)

  /** The JSON report; `of` is the command it answers (history). */
  datatype Report = Report(number: nat, ok: bool, req: Req, of: nat)

  datatype Pwmd = Pwmd(alive: bool, number: nat, pipe: seq<Cmd>, busy: Option<Cmd>)

  datatype Phase = Check | Unlink | Spawn | Look | Write | Poll

  /** The thread that holds the lock.  seq0 is the code's variable, first its value after the
      look; history: `lost`, the look failed though a report with these parameters was there;
      `twin`, a command with the same parameters was still pending at the look; `mine`, this
      command has been reported. */
  datatype Sender = Sender(req: Req, phase: Phase, seq0: nat, first: nat, id: nat, lost: bool, twin: bool, mine: bool)

  datatype Answer = Answer(sender: Sender, report: Option<Report>)

  datatype Sys = Sys(
    file: Option<Report>, d: Pwmd, lock: Option<Sender>, applied: map<(nat, char), Report>,
    next: nat, answers: seq<Answer>)

  // ---- steps -------------------------------------------------------------------------

  datatype Event =
    | Acquire(req: Req)
    | CheckAlive(tooSoon: bool)
    | Unlinked
    | Spawned(ready: bool)
    | Looked(ok: bool)
    | Written(ok: bool, sent: bool)
    | Polled(ok: bool)
    | GaveUp
    | Take
    | Finish(ok: bool, saved: bool)
    | Die

  /** Drop the lock and give the caller an error. */
  function Failed(s: Sys): Sys
    requires s.lock.Some?
  {
    s.(lock := None, answers := s.answers + [Answer(s.lock.value, None)])
  }

  function InPhase(s: Sys, p: Phase): bool {
    s.lock.Some? && s.lock.value.phase == p
  }

  function Moved(s: Sys, p: Phase): Sys
    requires s.lock.Some?
  {
    s.(lock := Some(s.lock.value.(phase := p)))
  }

  predicate Pending(d: Pwmd, r: Req) {
    (d.busy.Some? && d.busy.value.req == r) || exists k :: 0 <= k < |d.pipe| && d.pipe[k].req == r
  }

  predicate OnFile(s: Sys, r: Req) {
    s.file.Some? && s.file.value.req == r
  }

  /** before = read_json(); read_json gives None when the file is missing or reading it fails. */
  function AfterLook(s: Sys, w: Sender, seen: Option<Report>): Sys {
    var seq0 := if seen.Some? then seen.value.number else 0;
    s.(lock := Some(w.(phase := Write, seq0 := seq0, first := seq0, lost := seen == None && OnFile(s, w.req),
                       twin := Pending(s.d, w.req), mine := false)))
  }

  function AfterWrite(s: Sys, w: Sender, ok: bool, sent: bool): Sys {
    var t := if sent then s.(next := s.next + 1, d := s.d.(pipe := s.d.pipe + [Cmd(s.next, w.req)])) else s;
    if ok then t.(lock := Some(w.(phase := Poll, id := s.next))) else Failed(t.(lock := Some(w)))
  }

  function AfterPoll(s: Sys, w: Sender, seen: Option<Report>): Sys {
    if seen == None || seen.value.number <= w.seq0 then s
    else if seen.value.req != w.req then s.(lock := Some(w.(seq0 := seen.value.number)))
    else
      s.(lock := None, answers := s.answers + [Answer(w.(seq0 := seen.value.number), seen)],
         applied := if seen.value.ok then s.applied[(w.req.gpt, w.req.ch) := seen.value] else s.applied)
  }

  /** pwmd reports the command it was working on: ++seq, then pwmd_write_json, which silently
      does nothing when it cannot open the temporary file. */
  function AfterFinish(s: Sys, c: Cmd, ok: bool, saved: bool): Sys {
    s.(d := s.d.(number := s.d.number + 1, busy := None),
       file := if saved then Some(Report(s.d.number + 1, ok, c.req, c.id)) else s.file,
       lock := if saved && InPhase(s, Poll) && s.lock.value.id == c.id
               then Some(s.lock.value.(mine := true)) else s.lock)
  }

  ghost predicate Next(s: Sys, s': Sys, e: Event) {
    match e
    case Acquire(req) => s.lock == None && s' == s.(lock := Some(Sender(req, Check, 0, 0, 0, false, false, false)))
    case CheckAlive(tooSoon) =>
      InPhase(s, Check) && s' == (if s.d.alive then Moved(s, Look) else if tooSoon then Failed(s) else Moved(s, Unlink))
    case Unlinked => InPhase(s, Unlink) && s' == Moved(s, Spawn).(file := None)
    case Spawned(ready) =>
      InPhase(s, Spawn) && s' == (if ready then Moved(s, Look) else Failed(s)).(d := Pwmd(true, 0, [], None))
    case Looked(ok) => InPhase(s, Look) && s' == AfterLook(s, s.lock.value, if ok then s.file else None)
    case Written(ok, sent) =>
      InPhase(s, Write) && (ok ==> sent) && (sent ==> s.d.alive) && s' == AfterWrite(s, s.lock.value, ok, sent)
    case Polled(ok) => InPhase(s, Poll) && s' == AfterPoll(s, s.lock.value, if ok then s.file else None)
    case GaveUp => InPhase(s, Poll) && s' == Failed(s)
    case Take =>
      && s.d.alive && s.d.busy == None && |s.d.pipe| > 0
      && s' == s.(d := s.d.(busy := Some(s.d.pipe[0]), pipe := s.d.pipe[1..]))
    case Finish(ok, saved) => s.d.alive && s.d.busy.Some? && s' == AfterFinish(s, s.d.busy.value, ok, saved)
    case Die => s' == s.(d := s.d.(alive := false, pipe := [], busy := None))
  }

  /** main() has started the daemon: no report file yet. */
  ghost predicate Run(ss: seq<Sys>, es: seq<Event>) {
    && |ss| == |es| + 1
    && ss[0] == Sys(None, Pwmd(true, 0, [], None), None, map[], 0, [])
    && forall i :: 0 <= i < |es| ==> StepAt(ss, es, i)
  }

  ghost predicate StepAt(ss: seq<Sys>, es: seq<Event>, i: nat)
    requires |ss| == |es| + 1 && i < |es|
  {
    Next(ss[i], ss[i + 1], es[i])
  }

  // ---- invariant ---------------------------------------------------------------------

  /** Commands are worked off in the order they were written. */
  ghost predicate InOrder(s: Sys) {
    && (forall k :: 0 <= k < |s.d.pipe| ==> s.d.pipe[k].id < s.next)
    && (forall j, k :: 0 <= j < k < |s.d.pipe| ==> s.d.pipe[j].id < s.d.pipe[k].id)
    && (s.d.busy.Some? ==> s.d.busy.value.id < s.next)
    && (s.d.busy.Some? ==> forall k :: 0 <= k < |s.d.pipe| ==> s.d.busy.value.id < s.d.pipe[k].id)
    && (s.file.Some? ==> s.file.value.of < s.next)
    && (s.file.Some? && s.d.busy.Some? ==> s.file.value.of < s.d.busy.value.id)
    && (s.file.Some? ==> forall k :: 0 <= k < |s.d.pipe| ==> s.file.value.of < s.d.pipe[k].id)
  }

  /** A report in the file comes from the daemon now (or last) running. */
  ghost predicate Current(s: Sys) {
    && (s.file.Some? ==> 0 < s.file.value.number <= s.d.number)
    && (InPhase(s, Spawn) ==> s.file == None)
    && (InPhase(s, Unlink) || InPhase(s, Spawn) ==> !s.d.alive && s.d.pipe == [] && s.d.busy == None)
    && (!s.d.alive ==> s.d.pipe == [] && s.d.busy == None)
  }

  /** What holds of the sender between its look and its answer. */
  ghost predicate Expecting(s: Sys, w: Sender) {
    && w.first <= w.seq0 <= s.d.number
    && (!w.lost && !w.twin && s.file.Some? && s.file.value.number > w.seq0 && s.file.value.req == w.req ==>
          w.phase == Poll && s.file.value.of == w.id)
    && (!w.twin && s.d.busy.Some? && s.d.busy.value.req == w.req ==> w.phase == Poll && s.d.busy.value.id == w.id)
    && (!w.twin ==> forall k :: 0 <= k < |s.d.pipe| && s.d.pipe[k].req == w.req ==>
          w.phase == Poll && s.d.pipe[k].id == w.id)
    && (w.phase == Poll ==> Polling(s, w))
    && (w.phase != Poll ==> !w.mine)
  }

  ghost predicate Polling(s: Sys, w: Sender) {
    && s.next == w.id + 1
    && (s.file.Some? && s.file.value.of == w.id ==> s.file.value.number > w.seq0 && s.file.value.req == w.req)
    && (s.d.busy.Some? && s.d.busy.value.id == w.id ==> s.d.busy.value.req == w.req)
    && (forall k :: 0 <= k < |s.d.pipe| && s.d.pipe[k].id == w.id ==> s.d.pipe[k].req == w.req)
    && (w.mine ==> s.file.Some? && s.file.value.of == w.id && s.d.pipe == [] && s.d.busy == None)
  }

  /** An answer with a report repeats the four parameters and is newer than the look. */
  ghost predicate Honest(a: Answer) {
    a.report.Some? ==>
      && a.report.value.req == a.sender.req && a.report.value.number > a.sender.first
      && (!a.sender.lost && !a.sender.twin ==> a.report.value.of == a.sender.id)
  }

  ghost predicate Inv(s: Sys) {
    && InOrder(s) && Current(s)
    && (InPhase(s, Write) || InPhase(s, Poll) ==> Expecting(s, s.lock.value))
    && (forall k :: 0 <= k < |s.answers| ==> Honest(s.answers[k]))
    && (forall k :: k in s.applied ==> s.applied[k].ok && (s.applied[k].req.gpt, s.applied[k].req.ch) == k)
  }

  lemma StepKeepsInv(s: Sys, s': Sys, e: Event)
    requires Inv(s) && Next(s, s', e)
    ensures Inv(s')
  {
    match e
    case Looked(ok) => LookKeepsInv(s, s', ok);
    case Written(ok, sent) => WriteKeepsInv(s, s', ok, sent);
    case Polled(ok) => PollKeepsInv(s, s', ok);
    case Take => TakeKeepsInv(s, s');
    case Finish(ok, saved) => FinishKeepsInv(s, s', ok, saved);
    case CheckAlive(tooSoon) => CheckKeepsInv(s, s', tooSoon);
    case Spawned(ready) => SpawnKeepsInv(s, s', ready);
    case GaveUp => GiveUpKeepsInv(s, s');
    case Die => DieKeepsInv(s, s');
    case _ => LockStepKeepsInv(s, s', e);
  }

  lemma LockStepKeepsInv(s: Sys, s': Sys, e: Event)
    requires Inv(s) && Next(s, s', e) && (e.Acquire? || e.Unlinked?)
    ensures Inv(s')
  {
  }

  lemma CheckKeepsInv(s: Sys, s': Sys, tooSoon: bool)
    requires Inv(s) && Next(s, s', CheckAlive(tooSoon))
    ensures Inv(s')
  {
  }

  lemma SpawnKeepsInv(s: Sys, s': Sys, ready: bool)
    requires Inv(s) && Next(s, s', Spawned(ready))
    ensures Inv(s')
  {
  }

  lemma GiveUpKeepsInv(s: Sys, s': Sys)
    requires Inv(s) && Next(s, s', GaveUp)
    ensures Inv(s')
  {
  }

  lemma DieKeepsInv(s: Sys, s': Sys)
    requires Inv(s) && Next(s, s', Die)
    ensures Inv(s')
  {
  }

  lemma LookKeepsInv(s: Sys, s': Sys, ok: bool)
    requires Inv(s) && Next(s, s', Looked(ok))
    ensures Inv(s')
  {
  }

  lemma WriteKeepsInv(s: Sys, s': Sys, ok: bool, sent: bool)
    requires Inv(s) && Next(s, s', Written(ok, sent))
    ensures Inv(s')
  {
    WriteKeepsOrder(s, s', ok, sent);
  }

  lemma WriteKeepsOrder(s: Sys, s': Sys, ok: bool, sent: bool)
    requires Inv(s) && Next(s, s', Written(ok, sent))
    ensures InOrder(s') && Current(s')
  {
  }

  lemma PollKeepsInv(s: Sys, s': Sys, ok: bool)
    requires Inv(s) && Next(s, s', Polled(ok))
    ensures Inv(s')
  {
  }

  lemma TakeKeepsInv(s: Sys, s': Sys)
    requires Inv(s) && Next(s, s', Take)
    ensures Inv(s')
  {
  }

  lemma FinishKeepsInv(s: Sys, s': Sys, ok: bool, saved: bool)
    requires Inv(s) && Next(s, s', Finish(ok, saved))
    ensures Inv(s')
  {
    WaitingMeansNewer(s);
    FinishKeepsOrder(s, s', ok, saved);
  }

  /** A command with others waiting behind it is not the newest. */
  lemma WaitingMeansNewer(s: Sys)
    requires InOrder(s) && s.d.busy.Some?
    ensures |s.d.pipe| > 0 ==> s.d.busy.value.id + 1 < s.next
  {
    if |s.d.pipe| > 0 {
      assert s.d.busy.value.id < s.d.pipe[0].id < s.next;
    }
  }

  lemma FinishKeepsOrder(s: Sys, s': Sys, ok: bool, saved: bool)
    requires Inv(s) && Next(s, s', Finish(ok, saved))
    ensures InOrder(s') && Current(s')
  {
  }

  lemma {:induction false} RunKeepsInv(ss: seq<Sys>, es: seq<Event>, i: nat)
    requires Run(ss, es) && i < |ss|
    ensures Inv(ss[i])
  {
    if i > 0 {
      RunKeepsInv(ss, es, i - 1);
      assert StepAt(ss, es, i - 1);
      StepKeepsInv(ss[i - 1], ss[i], es[i - 1]);
    }
  }

  // ---- theorems ----------------------------------------------------------------------

  /** REPORTS MATCH REQUESTS.  Every report send ever returns, across threads, timeouts, deaths and
      restarts, carries the four parameters asked for and a seq newer than the one read at the
      call; and it is the report of that very command when the look at the start worked and no
      command with the same parameters was left over in the pipe. */
  lemma ReportsMatch(ss: seq<Sys>, es: seq<Event>, i: nat, k: nat)
    requires Run(ss, es) && i < |ss| && k < |ss[i].answers| && ss[i].answers[k].report.Some?
    ensures var a := ss[i].answers[k];
            && a.report.value.req == a.sender.req && a.report.value.number > a.sender.first
            && (!a.sender.lost && !a.sender.twin ==> a.report.value.of == a.sender.id)
  {
    RunKeepsInv(ss, es, i);
    assert Honest(ss[i].answers[k]);
  }

  /** A REPORT CANNOT BE MISSED.  Once the command's own report has been written it stays in the
      file until the sender is done, and the next read that works returns exactly that report. */
  lemma OwnReportIsSeen(ss: seq<Sys>, es: seq<Event>, i: nat)
    requires Run(ss, es) && i < |es| && InPhase(ss[i], Poll) && ss[i].lock.value.mine
    ensures ss[i].file.Some? && ss[i].file.value.of == ss[i].lock.value.id
    ensures es[i] == Polled(true) ==>
              ss[i + 1].lock == None
              && ss[i + 1].answers == ss[i].answers +
                    [Answer(ss[i].lock.value.(seq0 := ss[i].file.value.number), ss[i].file)]
    ensures es[i] != Polled(true) && es[i] != GaveUp ==>
              ss[i + 1].file == ss[i].file && ss[i + 1].lock == ss[i].lock
  {
    RunKeepsInv(ss, es, i);
    assert StepAt(ss, es, i);
  }

  /** The report of the command being waited for, if it can be saved, is noticed as such. */
  lemma OwnReportIsSaved(ss: seq<Sys>, es: seq<Event>, i: nat, ok: bool)
    requires Run(ss, es) && i < |es| && InPhase(ss[i], Poll) && es[i] == Finish(ok, true)
    requires ss[i].d.busy.Some? && ss[i].d.busy.value.id == ss[i].lock.value.id
    ensures InPhase(ss[i + 1], Poll) && ss[i + 1].lock.value.mine
    ensures ss[i + 1].file == Some(Report(ss[i].d.number + 1, ok, ss[i].lock.value.req, ss[i].lock.value.id))
  {
    RunKeepsInv(ss, es, i);
    assert StepAt(ss, es, i);
  }

  /** Each entry the page restores is a successful report for that GPT and channel. */
  lemma AppliedIsTrue(ss: seq<Sys>, es: seq<Event>, i: nat, key: (nat, char))
    requires Run(ss, es) && i < |ss| && key in ss[i].applied
    ensures var r := ss[i].applied[key]; r.ok && r.req.gpt == key.0 && r.req.ch == key.1
  {
    RunKeepsInv(ss, es, i);
  }

  /** Answer k is a successful report for the GPT and channel. */
  ghost predicate Succeeded(s: Sys, k: int, key: (nat, char)) {
    && 0 <= k < |s.answers| && s.answers[k].report.Some? && s.answers[k].report.value.ok
    && (s.answers[k].sender.req.gpt, s.answers[k].sender.req.ch) == key
  }

  /** Answer k is the last of them, and what is kept. */
  ghost predicate KeptFrom(s: Sys, k: int, key: (nat, char)) {
    && Succeeded(s, k, key) && key in s.applied && s.applied[key] == s.answers[k].report.value
    && forall j :: j > k ==> !Succeeded(s, j, key)
  }

  ghost predicate Remembers(s: Sys, key: (nat, char)) {
    && (key in s.applied ==> exists k :: KeptFrom(s, k, key))
    && (key !in s.applied ==> forall k :: !Succeeded(s, k, key))
  }

  /** A step gives at most one answer, and applies it when it is a successful report. */
  lemma AnswerApplies(s: Sys, s': Sys, e: Event)
    requires Next(s, s', e)
    ensures || (s'.answers == s.answers && s'.applied == s.applied)
            || (|s'.answers| == |s.answers| + 1 && s'.answers[..|s.answers|] == s.answers
                && var a := s'.answers[|s.answers|];
                   s'.applied == if a.report.Some? && a.report.value.ok
                                 then s.applied[(a.sender.req.gpt, a.sender.req.ch) := a.report.value] else s.applied)
  {
  }

  lemma StepRemembers(s: Sys, s': Sys, e: Event, key: (nat, char))
    requires Next(s, s', e) && Remembers(s, key)
    ensures Remembers(s', key)
  {
    AnswerApplies(s, s', e);
    if s'.answers != s.answers {
      var n := |s.answers|;
      forall k | k < n ensures Succeeded(s', k, key) == Succeeded(s, k, key) {
        assert k >= 0 ==> s'.answers[k] == s'.answers[..n][k];
      }
      if Succeeded(s', n, key) {
        assert KeptFrom(s', n, key);
      } else if key in s.applied {
        var k :| KeptFrom(s, k, key);
        assert KeptFrom(s', k, key);
      }
    } else {
      forall k ensures Succeeded(s', k, key) == Succeeded(s, k, key) {
      }
      if key in s.applied {
        var k :| KeptFrom(s, k, key);
        assert KeptFrom(s', k, key);
      }
    }
  }

  /** THE LAST SUCCESS IS WHAT IS REMEMBERED.  For every GPT and channel, in every run: the entry is the
      last successful report given for it, and there is none exactly when none was given. */
  lemma {:induction false} LastSuccessIsApplied(ss: seq<Sys>, es: seq<Event>, i: nat, key: (nat, char))
    requires Run(ss, es) && i < |ss|
    ensures key in ss[i].applied ==> exists k :: KeptFrom(ss[i], k, key)
    ensures key in ss[i].applied <==> exists k :: Succeeded(ss[i], k, key)
  {
    Recalls(ss, es, i, key);
  }

  lemma {:induction false} Recalls(ss: seq<Sys>, es: seq<Event>, i: nat, key: (nat, char))
    requires Run(ss, es) && i < |ss|
    ensures Remembers(ss[i], key)
  {
    if i > 0 {
      Recalls(ss, es, i - 1, key);
      assert StepAt(ss, es, i - 1);
      StepRemembers(ss[i - 1], ss[i], es[i - 1], key);
    }
  }
}
