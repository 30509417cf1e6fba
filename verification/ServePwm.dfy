/** Daemon.send as the server runs it: one call, given what the daemon process, the clock and
    the report file show it. */
module ServePwm {
  import opened Options
  import opened PwmWeb

  const RETRY_MS: int := 30_000

  /** The highest seq read so far. */
  function Highest(seen: seq<Option<Report>>, seq0: nat): nat {
    if seen == [] then seq0
    else
      var h := Highest(seen[..|seen| - 1], seq0);
      var last := seen[|seen| - 1];
      if last.Some? && last.value.number > h then last.value.number else h
  }

  /** The polling loop takes the k-th read: it is newer than all before it and repeats the
      parameters. */
  predicate Takes(polls: seq<Option<Report>>, seq0: nat, req: Req, k: nat)
    requires k < |polls|
  {
    polls[k].Some? && polls[k].value.req == req && polls[k].value.number > Highest(polls[..k], seq0)
  }

  /** The report the loop returns: the first read it takes. */
  function First(polls: seq<Option<Report>>, seq0: nat, req: Req): Option<Report> {
    if polls == [] then None
    else
      var f := First(polls[..|polls| - 1], seq0, req);
      if f.Some? then f else if Takes(polls, seq0, req, |polls| - 1) then polls[|polls| - 1] else None
  }

  ghost predicate FirstAt(polls: seq<Option<Report>>, seq0: nat, req: Req, k: int) {
    && 0 <= k < |polls| && Takes(polls, seq0, req, k)
    && forall j :: 0 <= j < k ==> !Takes(polls, seq0, req, j)
  }

  lemma {:induction false} HighestIs(seen: seq<Option<Report>>, seq0: nat)
    ensures Highest(seen, seq0) >= seq0
    ensures forall j :: 0 <= j < |seen| && seen[j].Some? ==> seen[j].value.number <= Highest(seen, seq0)
    ensures || Highest(seen, seq0) == seq0
            || exists j :: 0 <= j < |seen| && seen[j].Some? && seen[j].value.number == Highest(seen, seq0)
  {
    if seen != [] {
      var front := seen[..|seen| - 1];
      HighestIs(front, seq0);
      forall j | 0 <= j < |front| ensures seen[j] == front[j] {
      }
      if Highest(seen, seq0) != seq0 && Highest(seen, seq0) == Highest(front, seq0) {
        var j :| 0 <= j < |front| && front[j].Some? && front[j].value.number == Highest(front, seq0);
        assert seen[j] == front[j];
      }
    }
  }

  /** Read k carries the parameters asked for, and is newer than the look and every read before. */
  ghost predicate NewAndMatching(polls: seq<Option<Report>>, seq0: nat, req: Req, k: int) {
    && 0 <= k < |polls| && polls[k].Some? && polls[k].value.req == req && polls[k].value.number > seq0
    && forall j :: 0 <= j < k && polls[j].Some? ==> polls[j].value.number < polls[k].value.number
  }

  lemma TakesIff(polls: seq<Option<Report>>, seq0: nat, req: Req, k: nat)
    requires k < |polls|
    ensures Takes(polls, seq0, req, k) <==> NewAndMatching(polls, seq0, req, k)
  {
    HighestIs(polls[..k], seq0);
    forall j | 0 <= j < k ensures polls[..k][j] == polls[j] {
    }
  }

  /** The polling loop returns the first read that is new and matches. */
  lemma FirstMeans(polls: seq<Option<Report>>, seq0: nat, req: Req)
    ensures var r := First(polls, seq0, req);
            && (r.Some? ==> exists k :: NewAndMatching(polls, seq0, req, k) && polls[k] == r
                                        && forall j :: 0 <= j < k ==> !NewAndMatching(polls, seq0, req, j))
            && (r == None ==> forall k :: !NewAndMatching(polls, seq0, req, k))
  {
    FirstIs(polls, seq0, req);
    forall k: nat | k < |polls| ensures Takes(polls, seq0, req, k) <==> NewAndMatching(polls, seq0, req, k) {
      TakesIff(polls, seq0, req, k);
    }
    if First(polls, seq0, req).Some? {
      var k :| FirstAt(polls, seq0, req, k) && polls[k] == First(polls, seq0, req);
      assert NewAndMatching(polls, seq0, req, k);
    }
  }

  lemma {:induction false} FirstIs(polls: seq<Option<Report>>, seq0: nat, req: Req)
    ensures var r := First(polls, seq0, req);
            && (r.Some? ==> exists k :: FirstAt(polls, seq0, req, k) && polls[k] == r)
            && (r == None ==> forall k :: 0 <= k < |polls| ==> !Takes(polls, seq0, req, k))
  {
    if polls != [] {
      var front := polls[..|polls| - 1];
      FirstIs(front, seq0, req);
      forall j | 0 <= j < |front| ensures Takes(polls, seq0, req, j) == Takes(front, seq0, req, j) {
        assert polls[..j] == front[..j];
      }
      var r := First(front, seq0, req);
      if r.Some? {
        var k :| FirstAt(front, seq0, req, k) && front[k] == r;
        assert FirstAt(polls, seq0, req, k) && polls[k] == r;
      } else if Takes(polls, seq0, req, |polls| - 1) {
        assert FirstAt(polls, seq0, req, |polls| - 1);
      }
    }
  }

  /** All a call learns from outside: whether the daemon lives, whether the last restart was too
      recent, whether the restarted daemon gets ready, the report before the command, whether
      the pipe takes the line, and what read_json returns until the deadline. */
  datatype Observed = Observed(alive: bool, tooSoon: bool, ready: bool,
    look: Option<Report>, writes: bool, polls: seq<Option<Report>>)

  function LookSeq(look: Option<Report>): nat {
    if look.Some? then look.value.number else 0
  }

  /** Whether the command is written at all. */
  predicate Asks(o: Observed) {
    o.writes && (o.alive || (!o.tooSoon && o.ready))
  }

  /** What send returns. */
  function Reply(o: Observed, req: Req): Option<Report> {
    if Asks(o) then First(o.polls, LookSeq(o.look), req) else None
  }

  function AppliedAfter(applied: map<(nat, char), Report>, req: Req, r: Option<Report>): map<(nat, char), Report> {
    if r.Some? && r.value.ok then applied[(req.gpt, req.ch) := r.value] else applied
  }

  class Daemon {
    var applied: map<(nat, char), Report>
    var lastRestart: int  // milliseconds of time.monotonic()
    var starts: nat       // how often start() was called

    /** send, at the time `now`. */
    method Send(req: Req, alive: bool, now: int, ready: bool, look: Option<Report>, writes: bool,
                polls: seq<Option<Report>>)
      returns (r: Option<Report>)
      modifies this
      // at most one start in 30 seconds
      ensures if !alive && now - old(lastRestart) >= 30_000 then starts == old(starts) + 1 && lastRestart == now
              else starts == old(starts) && lastRestart == old(lastRestart)
      ensures var o := Observed(alive, now - old(lastRestart) < RETRY_MS, ready, look, writes, polls);
              r == Reply(o, req) && applied == AppliedAfter(old(applied), req, r)
      // the first read that is newer and matches, if the command was written at all, and only that
      ensures var asked := writes && (alive || (now - old(lastRestart) >= 30_000 && ready));
              var seq0 := if look.Some? then look.value.number else 0;
              && (r.Some? ==> asked && exists k :: NewAndMatching(polls, seq0, req, k) && polls[k] == r
                                           && forall j :: 0 <= j < k ==> !NewAndMatching(polls, seq0, req, j))
              && (r == None && asked ==> forall k :: !NewAndMatching(polls, seq0, req, k))
      ensures applied == if r.Some? && r.value.ok then old(applied)[(req.gpt, req.ch) := r.value] else old(applied)
    {
      FirstMeans(polls, LookSeq(look), req);
      if !alive {
        if now - lastRestart < RETRY_MS {
          return None;
        }
        lastRestart := now;
        starts := starts + 1;
        if !ready {
          return None;
        }
      }
      if !writes {
        return None;
      }
      r := PollLoop(req, LookSeq(look), polls);
      if r.Some? && r.value.ok {
        applied := applied[(req.gpt, req.ch) := r.value];
      }
    }

    /** The loop that waits for seq to advance. */
    method PollLoop(req: Req, start: nat, polls: seq<Option<Report>>) returns (r: Option<Report>)
      ensures r == First(polls, start, req)
    {
      var seq0 := start;
      var i := 0;
      while i < |polls|
        invariant i <= |polls| && seq0 == Highest(polls[..i], start) && First(polls[..i], start, req) == None
      {
        var cur := polls[i];
        assert polls[..i + 1][..i] == polls[..i];
        if cur.Some? && cur.value.number > seq0 {
          seq0 := cur.value.number;
          if cur.value.req == req {
            assert First(polls[..i + 1], start, req) == cur;
            FirstStays(polls, i + 1, start, req);
            return cur;
          }
        }
        i := i + 1;
      }
      assert polls[..i] == polls;
      return None;
    }
  }

  /** Reads after the one taken do not matter. */
  lemma {:induction false} FirstStays(polls: seq<Option<Report>>, i: nat, seq0: nat, req: Req)
    requires i <= |polls| && First(polls[..i], seq0, req).Some?
    ensures First(polls, seq0, req) == First(polls[..i], seq0, req)
    decreases |polls|
  {
    if i == |polls| {
      assert polls[..i] == polls;
    } else {
      assert polls[..|polls| - 1][..i] == polls[..i];
      FirstStays(polls[..|polls| - 1], i, seq0, req);
    }
  }

  // ---- the protocol does what send does ----------------------------------------------

  /** What the sender learns from one step. */
  function Learn(o: Observed, s: Sys, e: Event): Observed {
    match e
    case CheckAlive(tooSoon) => o.(alive := s.d.alive, tooSoon := tooSoon)
    case Spawned(ready) => o.(ready := ready)
    case Looked(ok) => o.(look := if ok then s.file else None)
    case Written(ok, sent) => o.(writes := ok)
    case Polled(ok) => o.(polls := o.polls + [if ok then s.file else None])
    case _ => o
  }

  function Learned(ss: seq<Sys>, es: seq<Event>, n: nat): Observed
    requires n <= |es| < |ss|
  {
    if n == 0 then Observed(true, false, false, None, false, [])
    else Learn(Learned(ss, es, n - 1), ss[n - 1], es[n - 1])
  }

  /** From taking the lock to dropping it; the daemon and time go on as they like. */
  ghost predicate OneSend(ss: seq<Sys>, es: seq<Event>, req: Req) {
    && |ss| == |es| + 1 && |es| > 1 && es[0] == Acquire(req)
    && (forall i :: 0 <= i < |es| ==> StepAt(ss, es, i))
    && (forall i :: 0 < i < |es| ==> ss[i].lock.Some?) && ss[|es|].lock == None
  }

  /** While the lock is held. */
  ghost predicate Holds(s: Sys, s0: Sys, o: Observed, req: Req) {
    && s.answers == s0.answers && s.applied == s0.applied && s.lock.Some? && s.lock.value.req == req
    && (s.lock.value.phase != Poll ==> o.polls == [] && !o.writes)
    && match s.lock.value.phase
       case Check => true
       case Unlink => !o.alive && !o.tooSoon
       case Spawn => !o.alive && !o.tooSoon
       case Look => o.alive || (!o.tooSoon && o.ready)
       case Write => (o.alive || (!o.tooSoon && o.ready)) && s.lock.value.seq0 == LookSeq(o.look)
       case Poll =>
         && Asks(o) && s.lock.value.seq0 == Highest(o.polls, LookSeq(o.look))
         && First(o.polls, LookSeq(o.look), req) == None
  }

  /** A step keeps the lock as described, or drops it with send's reply. */
  lemma SendStep(s: Sys, s': Sys, e: Event, s0: Sys, o: Observed, req: Req)
    requires Holds(s, s0, o, req) && Next(s, s', e)
    ensures s'.lock.Some? ==> Holds(s', s0, Learn(o, s, e), req)
    ensures s'.lock == None ==> Replied(s', s0, Learn(o, s, e), req)
  {
    match e
    case Polled(ok) => PollStep(s, s', ok, s0, o, req);
    case Written(ok, sent) => WriteStep(s, s', ok, sent, s0, o, req);
    case Looked(ok) => LookStep(s, s', ok, s0, o, req);
    case CheckAlive(tooSoon) => CheckStep(s, s', tooSoon, s0, o, req);
    case Spawned(ready) => SpawnStep(s, s', ready, s0, o, req);
    case _ => OtherStep(s, s', e, s0, o, req);
  }

  lemma PollStep(s: Sys, s': Sys, ok: bool, s0: Sys, o: Observed, req: Req)
    requires Holds(s, s0, o, req) && Next(s, s', Polled(ok))
    ensures s'.lock.Some? ==> Holds(s', s0, Learn(o, s, Polled(ok)), req)
    ensures s'.lock == None ==> Replied(s', s0, Learn(o, s, Polled(ok)), req)
  {
    var seen := if ok then s.file else None;
    assert (o.polls + [seen])[..|o.polls|] == o.polls;
  }

  lemma WriteStep(s: Sys, s': Sys, ok: bool, sent: bool, s0: Sys, o: Observed, req: Req)
    requires Holds(s, s0, o, req) && Next(s, s', Written(ok, sent))
    ensures s'.lock.Some? ==> Holds(s', s0, Learn(o, s, Written(ok, sent)), req)
    ensures s'.lock == None ==> Replied(s', s0, Learn(o, s, Written(ok, sent)), req)
  {
  }

  lemma LookStep(s: Sys, s': Sys, ok: bool, s0: Sys, o: Observed, req: Req)
    requires Holds(s, s0, o, req) && Next(s, s', Looked(ok))
    ensures s'.lock.Some? && Holds(s', s0, Learn(o, s, Looked(ok)), req)
  {
  }

  lemma CheckStep(s: Sys, s': Sys, tooSoon: bool, s0: Sys, o: Observed, req: Req)
    requires Holds(s, s0, o, req) && Next(s, s', CheckAlive(tooSoon))
    ensures s'.lock.Some? ==> Holds(s', s0, Learn(o, s, CheckAlive(tooSoon)), req)
    ensures s'.lock == None ==> Replied(s', s0, Learn(o, s, CheckAlive(tooSoon)), req)
  {
  }

  lemma SpawnStep(s: Sys, s': Sys, ready: bool, s0: Sys, o: Observed, req: Req)
    requires Holds(s, s0, o, req) && Next(s, s', Spawned(ready))
    ensures s'.lock.Some? ==> Holds(s', s0, Learn(o, s, Spawned(ready)), req)
    ensures s'.lock == None ==> Replied(s', s0, Learn(o, s, Spawned(ready)), req)
  {
  }

  lemma OtherStep(s: Sys, s': Sys, e: Event, s0: Sys, o: Observed, req: Req)
    requires Holds(s, s0, o, req) && Next(s, s', e)
    requires !e.Polled? && !e.Written? && !e.Looked? && !e.CheckAlive? && !e.Spawned?
    ensures s'.lock.Some? ==> Holds(s', s0, o, req)
    ensures s'.lock == None ==> Replied(s', s0, o, req)
  {
  }

  ghost predicate Replied(s: Sys, s0: Sys, o: Observed, req: Req) {
    && |s.answers| == |s0.answers| + 1 && s.answers[..|s0.answers|] == s0.answers
    && s.answers[|s0.answers|].report == Reply(o, req) && s.answers[|s0.answers|].sender.req == req
    && s.applied == AppliedAfter(s0.applied, req, Reply(o, req))
  }

  lemma {:induction false} SendHolds(ss: seq<Sys>, es: seq<Event>, req: Req, i: nat)
    requires OneSend(ss, es, req) && 0 < i < |es|
    ensures Holds(ss[i], ss[0], Learned(ss, es, i), req)
  {
    assert StepAt(ss, es, i - 1);
    if i > 1 {
      SendHolds(ss, es, req, i - 1);
      SendStep(ss[i - 1], ss[i], es[i - 1], ss[0], Learned(ss, es, i - 1), req);
    }
  }

  /** SEND IS A RUN OF THE PROTOCOL.  However the daemon's steps fall between those of the sender,
      the answer given and the applied map are those Daemon.Send computes from what the sender
      observed. */
  lemma SendIsARun(ss: seq<Sys>, es: seq<Event>, req: Req)
    requires OneSend(ss, es, req)
    ensures Replied(ss[|es|], ss[0], Learned(ss, es, |es|), req)
  {
    var n := |es| - 1;
    SendHolds(ss, es, req, n);
    assert StepAt(ss, es, n);
    SendStep(ss[n], ss[n + 1], es[n], ss[0], Learned(ss, es, n), req);
  }

  /** One turn of the loop is the polling step of the protocol. */
  lemma PollStepIsLoopTurn(s: Sys, w: Sender, seen: Option<Report>)
    requires s.lock == Some(w) && w.phase == Poll
    ensures var t := AfterPoll(s, w, seen);
            if Takes([seen], w.seq0, w.req, 0) then
              t.lock == None && |t.answers| == |s.answers| + 1 && t.answers[|s.answers|].report == seen
              && t.applied == AppliedAfter(s.applied, w.req, seen)
            else t.lock == Some(w.(seq0 := Highest([seen], w.seq0))) && t.answers == s.answers && t.applied == s.applied
  {
    assert [seen][..0] == [];
  }
}
