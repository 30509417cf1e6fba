/** rz_proc_notify: how a doorbell is rung towards the other core. */
module RzRproc {
  import opened Arm

  /** MAX_READ_WAIT is written 60 * 1000 and compared with a post-incremented counter. */
  const MAX_READ_WAIT := 60000

  datatype SendType = Msg | Rsp

  const MSG_IRQS: seq<nat> := [385, 391, 397, 403, 383, 389, 395, 401, 384, 390, 396, 402]
  const RSP_IRQS: seq<nat> := [376, 377, 378, 379, 368, 369, 370, 371, 372, 373, 374, 375]

  /** The send type of a channel with this interrupt, for a channel now holding `was`. */
  function Classified(irq: nat, was: SendType): SendType {
    if irq in RSP_IRQS then Rsp else if irq in MSG_IRQS then Msg else was
  }

  lemma TablesAreDisjoint(irq: nat)
    ensures irq in MSG_IRQS ==> Classified(irq, Rsp) == Msg
    ensures irq in RSP_IRQS ==> Classified(irq, Msg) == Rsp
    ensures irq !in MSG_IRQS && irq !in RSP_IRQS ==> forall was :: Classified(irq, was) == was
  {
    assert forall i, j :: 0 <= i < 12 && 0 <= j < 12 ==> MSG_IRQS[i] != RSP_IRQS[j];
  }

  /** The two words of a channel in shared memory. */
  datatype Slot = Txd | Rxd

  /** What one call does to the mailbox: store the id, read the status, ring. */
  datatype Access = PutId(way: SendType, slot: Slot, id: Word) | ReadStatus(way: SendType, value: Word)
    | SetInterrupt(way: SendType)

  /** The reads of a call that stops after the n-th. */
  function Reads(way: SendType, status: nat -> Word, n: nat): seq<Access> {
    seq(n, k requires 0 <= k < n => ReadStatus(way, status(k)))
  }

  /** What was added to the accesses concerns one side only: its id in its word, its status read n
      times, and its interrupt set if it was rung. */
  ghost predicate OneSide(was: seq<Access>, now: seq<Access>, way: SendType, id: Word,
                          status: nat -> Word, n: nat, rung: bool) {
    && |now| == |was| + n + 1 + (if rung then 1 else 0) && now[..|was|] == was
    && now[|was|] == PutId(way, if way == Msg then Rxd else Txd, id)
    && (forall k :: 0 <= k < n ==> now[|was| + 1 + k] == ReadStatus(way, status(k)))
    && (rung ==> now[|was| + n + 1] == SetInterrupt(way))
  }

  lemma PositionsAre(was: seq<Access>, way: SendType, id: Word, status: nat -> Word, n: nat, rung: bool)
    ensures var put := PutId(way, if way == Msg then Rxd else Txd, id);
            OneSide(was, was + [put] + Reads(way, status, n) + (if rung then [SetInterrupt(way)] else []),
                    way, id, status, n, rung)
  {
  }

  /** The k-th read lets the call go on: the previous doorbell has been cleared, or the program
      is being stopped. */
  predicate Passes(status: nat -> Word, stop: nat -> bool, k: nat) {
    status(k) == 0 || stop(k)
  }

  /** Whether and after how many reads the call rings, as a property of the status alone. */
  ghost predicate Outcome(status: nat -> Word, stop: nat -> bool, result: int, n: nat) {
    && 1 <= n <= MAX_READ_WAIT + 2
    && (forall k :: 0 <= k < n - 1 ==> !Passes(status, stop, k))
    && (n < MAX_READ_WAIT + 2 ==> Passes(status, stop, n - 1))
    && result == (if n == MAX_READ_WAIT + 2 then -1 else 0)
  }

  class Mailbox {
    const irq: nat          // chn_info[].irq_info
    const notifyId: Word
    var isInit: bool
    var sendType: SendType
    var accesses: seq<Access>

    /** rz_proc_notify.  status(k) is what the k-th read of the status register returns, stop(k)
        the value of force_stop after that read; n is the number of reads made. */
    method Notify(status: nat -> Word, stop: nat -> bool) returns (result: int, n: nat)
      modifies this
      ensures isInit && sendType == (if old(isInit) then old(sendType) else Classified(irq, old(sendType)))
      ensures Outcome(status, stop, result, n)
      ensures OneSide(old(accesses), accesses, sendType, notifyId, status, n, result == 0)
    {
      if !isInit {
        Classify();
        isInit := true;
      }
      if sendType == Msg {
        accesses := accesses + [PutId(Msg, Rxd, notifyId)];
      } else {
        accesses := accesses + [PutId(Rsp, Txd, notifyId)];
      }
      result, n := AwaitClear(status, stop);
      if result == 0 {
        accesses := accesses + [SetInterrupt(sendType)];
      }
      PositionsAre(old(accesses), sendType, notifyId, status, n, result == 0);
    }

    /** The reads of the status register. */
    method AwaitClear(status: nat -> Word, stop: nat -> bool) returns (result: int, n: nat)
      modifies `accesses
      ensures Outcome(status, stop, result, n)
      ensures accesses == old(accesses) + Reads(sendType, status, n)
    {
      var wait := 0;
      n := 0;
      var going := true;
      while going
        invariant n == wait <= MAX_READ_WAIT + 1
        invariant n == 0 ==> going
        invariant accesses == old(accesses) + Reads(sendType, status, n)
        invariant forall k :: 0 <= k < n - 1 ==> !Passes(status, stop, k)
        invariant n > 0 ==> (going <==> !Passes(status, stop, n - 1))
        decreases MAX_READ_WAIT + 2 - n, going
      {
        var val := status(n);
        accesses := accesses + [ReadStatus(sendType, val)];
        assert Reads(sendType, status, n + 1) == Reads(sendType, status, n) + [ReadStatus(sendType, val)];
        n := n + 1;
        if wait > MAX_READ_WAIT {
          return -1, n;
        }
        wait := wait + 1;
        going := val != 0 && !stop(n - 1);
      }
      result := 0;
    }

    /** The two searches: the second overrides the first. */
    method Classify()
      modifies `sendType
      ensures sendType == Classified(irq, old(sendType))
    {
      var i := 0;
      while i < 12 && irq != MSG_IRQS[i]
        invariant i <= 12 && irq !in MSG_IRQS[..i]
      {
        i := i + 1;
      }
      if i < 12 {
        sendType := Msg;
      }
      i := 0;
      while i < 12 && irq != RSP_IRQS[i]
        invariant i <= 12 && irq !in RSP_IRQS[..i]
      {
        i := i + 1;
      }
      if i < 12 {
        sendType := Rsp;
      }
    }
  }

  /** SET IS WRITTEN ONLY AFTER A CLEAR STATUS.  The call rings exactly when one of its first
      60,001 reads finds the status clear or the program stopping, and then right after the first
      that does; otherwise it gives up at the 60,002nd read, whatever that one says. */
  lemma RingsIff(status: nat -> Word, stop: nat -> bool, result: int, n: nat)
    requires Outcome(status, stop, result, n)
    ensures result == 0 <==> exists k :: 0 <= k <= 60000 && (status(k) == 0 || stop(k))
    ensures result == 0 ==> n > 0 && (status(n - 1) == 0 || stop(n - 1))
    ensures result == 0 ==> forall k :: 0 <= k < n - 1 ==> status(k) != 0 && !stop(k)
    ensures result != 0 ==> result == -1 && n == 60002
  {
    if result == 0 {
      assert Passes(status, stop, n - 1);
      assert status(n - 1) == 0 || stop(n - 1);
      forall k | 0 <= k < n - 1 ensures status(k) != 0 && !stop(k) {
        assert !Passes(status, stop, k);
      }
    } else {
      forall k | 0 <= k <= 60000 ensures !(status(k) == 0 || stop(k)) {
        assert !Passes(status, stop, k);
      }
    }
  }

  /** A DOORBELL IS NOT RUNG OVER ONE.  In what any call adds to the accesses, the write to a side's
      SET register comes right after a read of that same side's status that found it clear, or
      of a program being stopped; and no other side is touched. */
  lemma SetFollowsItsOwnStatus(was: seq<Access>, now: seq<Access>, way: SendType, id: Word,
                               status: nat -> Word, stop: nat -> bool, result: int, n: nat)
    requires Outcome(status, stop, result, n) && OneSide(was, now, way, id, status, n, result == 0)
    ensures forall i :: |was| <= i < |now| ==> now[i].way == way
    ensures forall i :: |was| <= i < |now| && now[i].SetInterrupt? ==>
              i > |was| + 1 && now[i - 1].ReadStatus? && now[i - 1].way == now[i].way
              && (now[i - 1].value == 0 || stop(n - 1))
  {
    RingsIff(status, stop, result, n);
    forall i | |was| <= i < |now|
      ensures now[i].way == way
      ensures now[i].SetInterrupt? ==>
                i > |was| + 1 && now[i - 1].ReadStatus? && now[i - 1].way == way
                && (now[i - 1].value == 0 || stop(n - 1))
    {
      var k := i - |was| - 1;
      if 0 <= k < n {
        assert now[|was| + 1 + k] == ReadStatus(way, status(k));
      } else if k == n {
        assert now[|was| + 1 + (n - 1)] == ReadStatus(way, status(n - 1));
      }
    }
  }

  // ---- rz_proc_irq_handler -----------------------------------------------------------

  const MAX_IDS: nat := 42  // RPVDEV_MAX_NUM

  /** One of the receivers 1 to 3: its thread runs, its interrupt, its flag (raised means
      cleared), and the id last received. */
  datatype Receiver = Receiver(valid: bool, irq: int, raised: bool, notifyId: Word)

  /** The two ends meet: what a channel ringing on one side writes is what the end that sends on the
      other side fetches, and the side it clears is the side rung. */
  lemma EndsMeet(k: nat, way: SendType)
    ensures var put := if way == Msg then Rxd else Txd;
            Answer(k, if way == Msg then Rsp else Msg) == [Clear(k, way), FetchId(k, put)]
  {
  }

  /** What the handler does first for channel k, which sends on the given side. */
  function Answer(k: nat, sends: SendType): seq<Effect> {
    if sends == Msg then [Clear(k, Rsp), FetchId(k, Txd)] else [Clear(k, Msg), FetchId(k, Rxd)]
  }

  /** The first receiver that answers to the interrupt, or 3 when none does. */
  function Addressed(rs: seq<Receiver>, vect: int): (k: nat)
    requires |rs| == 3
    ensures k <= 3 && (k < 3 ==> rs[k].valid && rs[k].irq == vect)
    ensures forall j :: 0 <= j < k ==> !(rs[j].valid && rs[j].irq == vect)
  {
    if rs[0].valid && rs[0].irq == vect then 0
    else if rs[1].valid && rs[1].irq == vect then 1
    else if rs[2].valid && rs[2].irq == vect then 2
    else 3
  }

  /** What the handler does to mailbox and condition variables: the channel's pending interrupt
      is cleared on the side opposite to the one it sends on, and the id is fetched from the
      word the sender on that side writes. */
  datatype Effect = Clear(channel: nat, way: SendType) | FetchId(channel: nat, slot: Slot) | SignalCond(channel: nat)

  class InterruptThread {
    const sendTypes: seq<SendType>
    var receivers: seq<Receiver>
    var effects: seq<Effect>

    constructor (types: seq<SendType>, rs: seq<Receiver>)
      ensures sendTypes == types && receivers == rs && effects == []
    {
      sendTypes, receivers, effects := types, rs, [];
    }

    /** rz_proc_irq_handler; `val` is the notify id found in shared memory. */
    method Handle(vect: int, val: Word) returns (handled: bool)
      requires |receivers| == 3 && |sendTypes| == 3
      modifies this
      ensures var k := Addressed(old(receivers), vect);
              var known := k < 3;
              && (handled <==> known && val < MAX_IDS)
              // the flag is raised for the addressed receiver only, and only with a valid id
              && receivers == (if handled then old(receivers)[k := old(receivers)[k].(raised := true, notifyId := val)]
                               else old(receivers))
              // an unknown interrupt touches nothing; a bad id is still acknowledged
              && effects == old(effects)
                   + (if known then Answer(k, sendTypes[k]) else [])
                   + (if handled then [SignalCond(k)] else [])
    {
      var k: nat;
      if receivers[0].valid && vect == receivers[0].irq {
        k := 0;
      } else if receivers[1].valid && vect == receivers[1].irq {
        k := 1;
      } else if receivers[2].valid && vect == receivers[2].irq {
        k := 2;
      } else {
        return false;
      }
      if sendTypes[k] == Msg {
        effects := effects + [Clear(k, Rsp), FetchId(k, Txd)];
      } else {
        effects := effects + [Clear(k, Msg), FetchId(k, Rxd)];
      }
      if val >= MAX_IDS {
        return false;
      }
      receivers := receivers[k := receivers[k].(notifyId := val)];
      receivers := receivers[k := receivers[k].(raised := true)];
      effects := effects + [SignalCond(k)];
      handled := true;
    }
  }
}
