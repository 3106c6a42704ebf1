// The asynchronous writer of internal/cache/redis.go: any number of senders, one
// bounded queue, one worker, and a stop that lets the worker drain the queue.
// A send and the counter update after it are separate steps, and so are the write of
// an operation and the counter update deferred behind it.

module AsyncWriter {
  datatype WriteOp = WriteOp(key: string, value: string)

  datatype Hand = Empty | Writing(op: WriteOp) | Written

  datatype Mode = Serving | Draining | Exited

  // `accepted` and `executed` record the operations sent and written, in order; `oks`
  // records which writes succeeded. `exitMark` is the number accepted when the worker left.
  datatype System = System(queue: seq<WriteOp>, hand: Hand, mode: Mode, stopped: bool,
                           pendingWrites: int, droppedWrites: int,
                           sent: nat, refused: nat, submitted: nat,
                           accepted: seq<WriteOp>, executed: seq<WriteOp>, oks: seq<bool>,
                           exitMark: nat, store: map<string, string>)

  datatype Label =
    | Send(op: WriteOp)     // setAsync's select: the queue takes it or it is dropped
    | Handover(op: WriteOp) // the same select meeting a worker that waits for work
    | CountSent             // pendingWrites.Add(1)
    | CountDropped          // droppedWrites.Add(1)
    | Take                  // the worker receives the oldest operation
    | Write(ok: bool)       // the client call for the operation in hand
    | CountWritten          // pendingWrites.Add(-1)
    | Stop                  // close(stopCh)
    | NoticeStop            // the worker sees the stop and starts to drain
    | Leave                 // the drain finds the queue empty

  ghost function Begin(store: map<string, string>): System {
    System([], Empty, Serving, false, 0, 0, 0, 0, 0, [], [], [], 0, store)
  }

  ghost predicate Enabled(s: System, l: Label) {
    match l
    case Send(_) => true
    case Handover(_) => s.queue == [] && s.hand == Empty && s.mode == Serving
    case CountSent => s.sent > 0
    case CountDropped => s.refused > 0
    case Take => s.queue != [] && s.hand == Empty && s.mode != Exited
    case Write(_) => s.hand.Writing?
    case CountWritten => s.hand.Written?
    case Stop => !s.stopped
    case NoticeStop => s.stopped && s.mode == Serving && s.hand == Empty
    case Leave => s.mode == Draining && s.hand == Empty && s.queue == []
  }

  ghost function Stored(store: map<string, string>, op: WriteOp, ok: bool): map<string, string> {
    if ok then store[op.key := op.value] else store
  }

  ghost function Apply(capacity: nat, s: System, l: Label): System
    requires Enabled(s, l)
  {
    match l
    case Send(op) =>
      if |s.queue| < capacity
      then s.(queue := s.queue + [op], accepted := s.accepted + [op], sent := s.sent + 1, submitted := s.submitted + 1)
      else s.(refused := s.refused + 1, submitted := s.submitted + 1)
    case Handover(op) =>
      s.(hand := Writing(op), accepted := s.accepted + [op], sent := s.sent + 1, submitted := s.submitted + 1)
    case CountSent => s.(sent := s.sent - 1, pendingWrites := s.pendingWrites + 1)
    case CountDropped => s.(refused := s.refused - 1, droppedWrites := s.droppedWrites + 1)
    case Take => s.(hand := Writing(s.queue[0]), queue := s.queue[1..])
    case Write(ok) =>
      s.(hand := Written, executed := s.executed + [s.hand.op], oks := s.oks + [ok],
         store := Stored(s.store, s.hand.op, ok))
    case CountWritten => s.(hand := Empty, pendingWrites := s.pendingWrites - 1)
    case Stop => s.(stopped := true)
    case NoticeStop => s.(mode := Draining)
    case Leave => s.(mode := Exited, exitMark := |s.accepted|)
  }

  ghost predicate CanRun(capacity: nat, s: System, run: seq<Label>)
    decreases |run|
  {
    run == [] || (Enabled(s, run[0]) && CanRun(capacity, Apply(capacity, s, run[0]), run[1..]))
  }

  ghost function Run(capacity: nat, s: System, run: seq<Label>): System
    requires CanRun(capacity, s, run)
    decreases |run|
  {
    if run == [] then s else Run(capacity, Apply(capacity, s, run[0]), run[1..])
  }

  ghost function InHand(s: System): seq<WriteOp> {
    if s.hand.Writing? then [s.hand.op] else []
  }

  /** The store after the given operations, of which only the successful ones take effect. */
  ghost function Replayed(store: map<string, string>, ops: seq<WriteOp>, oks: seq<bool>): map<string, string>
    requires |ops| == |oks|
    decreases |ops|
  {
    if ops == [] then store
    else
      var n := |ops| - 1;
      Stored(Replayed(store, ops[..n], oks[..n]), ops[n], oks[n])
  }

  lemma ReplayedNone(store: map<string, string>)
    ensures Replayed(store, [], []) == store
  {
  }

  lemma ReplayedSnoc(store: map<string, string>, ops: seq<WriteOp>, oks: seq<bool>, op: WriteOp, ok: bool)
    requires |ops| == |oks|
    ensures Replayed(store, ops + [op], oks + [ok]) == Stored(Replayed(store, ops, oks), op, ok)
  {
    assert (ops + [op])[..|ops|] == ops && (oks + [ok])[..|oks|] == oks;
  }

  /** The number of the last successful write of `k`, or -1. */
  ghost function LastWrite(ops: seq<WriteOp>, oks: seq<bool>, k: string): (last: int)
    requires |ops| == |oks|
    ensures -1 <= last < |ops|
    ensures last >= 0 ==> oks[last] && ops[last].key == k
    ensures forall j :: last < j < |ops| && oks[j] ==> ops[j].key != k
    decreases |ops|
  {
    var n := |ops| - 1;
    if ops == [] then -1
    else if oks[n] && ops[n].key == k then n
    else LastWrite(ops[..n], oks[..n], k)
  }

  /** Each key holds the value of the last successful write of it, or what it held before there was one. */
  lemma {:induction false} ReplayedMeaning(store: map<string, string>, ops: seq<WriteOp>, oks: seq<bool>, k: string)
    requires |ops| == |oks|
    ensures var after, last := Replayed(store, ops, oks), LastWrite(ops, oks, k);
            if last >= 0 then k in after && after[k] == ops[last].value
            else (k in after <==> k in store) && (k in store ==> after[k] == store[k])
    decreases |ops|
  {
    if ops == [] {
    } else {
      var n := |ops| - 1;
      ReplayedMeaning(store, ops[..n], oks[..n], k);
    }
  }

  /** First in, first out, exactly once; the store holds what was written. */
  ghost predicate OrderInv(initial: map<string, string>, s: System) {
    && s.executed + InHand(s) + s.queue == s.accepted
    && |s.oks| == |s.executed|
    && s.store == Replayed(initial, s.executed, s.oks)
  }

  ghost predicate CountInv(capacity: nat, s: System) {
    && |s.queue| <= capacity
    && s.pendingWrites + s.sent == |s.queue| + (if s.hand == Empty then 0 else 1)
    && |s.accepted| + s.droppedWrites + s.refused == s.submitted
  }

  ghost predicate ExitInv(s: System) {
    && (s.mode != Serving ==> s.stopped)
    && (s.mode == Exited ==> s.hand == Empty && s.exitMark <= |s.accepted| && s.executed == s.accepted[..s.exitMark])
  }

  ghost predicate Inv(capacity: nat, initial: map<string, string>, s: System) {
    OrderInv(initial, s) && CountInv(capacity, s) && ExitInv(s)
  }

  lemma WriteKeepsOrder(capacity: nat, initial: map<string, string>, s: System, ok: bool)
    requires OrderInv(initial, s) && s.hand.Writing?
    ensures OrderInv(initial, Apply(capacity, s, Write(ok)))
  {
    ReplayedSnoc(initial, s.executed, s.oks, s.hand.op, ok);
    hide Replayed;
    assert s.executed + [s.hand.op] + [] == s.executed + [s.hand.op];
  }

  lemma TakeKeepsOrder(capacity: nat, initial: map<string, string>, s: System)
    requires OrderInv(initial, s) && Enabled(s, Take)
    ensures OrderInv(initial, Apply(capacity, s, Take))
  {
    hide Replayed;
    assert s.executed + [s.queue[0]] + s.queue[1..] == s.executed + ([s.queue[0]] + s.queue[1..]);
    assert s.queue == [s.queue[0]] + s.queue[1..];
    assert s.executed + [] + s.queue == s.executed + s.queue;
  }

  /** A step that neither writes nor takes only appends to what is accepted, if anything. */
  lemma StepAppends(capacity: nat, s: System, l: Label)
    requires Enabled(s, l) && !l.Write? && l != Take
    ensures var s' := Apply(capacity, s, l);
            && s'.executed == s.executed && s'.oks == s.oks && s'.store == s.store
            && |s.accepted| <= |s'.accepted| && s'.accepted[..|s.accepted|] == s.accepted
            && InHand(s') + s'.queue == InHand(s) + s.queue + s'.accepted[|s.accepted|..]
  {
    var s' := Apply(capacity, s, l);
    if l.Handover? {
      assert InHand(s) + s.queue == [];
      assert s'.accepted[|s.accepted|..] == [l.op];
    } else if l.Send? {
      assert InHand(s) + (s.queue + [l.op]) == InHand(s) + s.queue + [l.op];
    }
  }

  lemma Appended(executed: seq<WriteOp>, hand: seq<WriteOp>, queue: seq<WriteOp>,
                 hand': seq<WriteOp>, queue': seq<WriteOp>, accepted: seq<WriteOp>, accepted': seq<WriteOp>)
    requires executed + hand + queue == accepted
    requires |accepted| <= |accepted'| && accepted'[..|accepted|] == accepted
    requires hand' + queue' == hand + queue + accepted'[|accepted|..]
    ensures executed + hand' + queue' == accepted'
  {
    var more := accepted'[|accepted|..];
    assert executed + hand' + queue' == executed + (hand' + queue');
    assert executed + (hand + queue + more) == executed + hand + queue + more;
    assert accepted' == accepted + more;
  }

  lemma StepKeepsOrder(capacity: nat, initial: map<string, string>, s: System, l: Label)
    requires OrderInv(initial, s) && Enabled(s, l)
    ensures OrderInv(initial, Apply(capacity, s, l))
  {
    hide Replayed;
    if l.Write? {
      WriteKeepsOrder(capacity, initial, s, l.ok);
    } else if l == Take {
      TakeKeepsOrder(capacity, initial, s);
    } else {
      var s' := Apply(capacity, s, l);
      StepAppends(capacity, s, l);
      Appended(s.executed, InHand(s), s.queue, InHand(s'), s'.queue, s.accepted, s'.accepted);
      hide Apply, InHand, Enabled;
    }
  }

  lemma StepKeepsCounts(capacity: nat, s: System, l: Label)
    requires CountInv(capacity, s) && Enabled(s, l)
    ensures CountInv(capacity, Apply(capacity, s, l))
  {
  }

  lemma StepKeepsExit(capacity: nat, initial: map<string, string>, s: System, l: Label)
    requires OrderInv(initial, s) && ExitInv(s) && Enabled(s, l)
    ensures ExitInv(Apply(capacity, s, l))
  {
    hide Replayed;
    if l == Leave {
      assert s.executed + [] + [] == s.executed;
    }
  }

  lemma StepKeepsInv(capacity: nat, initial: map<string, string>, s: System, l: Label)
    requires Inv(capacity, initial, s) && Enabled(s, l)
    ensures Inv(capacity, initial, Apply(capacity, s, l))
  {
    StepKeepsOrder(capacity, initial, s, l);
    StepKeepsCounts(capacity, s, l);
    StepKeepsExit(capacity, initial, s, l);
  }

  /** In every reachable state: order, exactly-once, both counters and the store. */
  lemma {:induction false} EveryRun(capacity: nat, initial: map<string, string>, s: System, run: seq<Label>)
    requires Inv(capacity, initial, s) && CanRun(capacity, s, run)
    ensures Inv(capacity, initial, Run(capacity, s, run))
    decreases |run|
  {
    if run == [] {
    } else {
      StepKeepsInv(capacity, initial, s, run[0]);
      EveryRun(capacity, initial, Apply(capacity, s, run[0]), run[1..]);
    }
  }

  lemma FifoExactlyOnce(capacity: nat, initial: map<string, string>, run: seq<Label>)
    requires CanRun(capacity, Begin(initial), run)
    ensures var s := Run(capacity, Begin(initial), run);
            && s.executed + InHand(s) + s.queue == s.accepted
            && s.pendingWrites + s.sent == |s.queue| + (if s.hand == Empty then 0 else 1)
            && |s.accepted| + s.droppedWrites + s.refused == s.submitted
            && s.executed <= s.accepted
  {
    EveryRun(capacity, initial, Begin(initial), run);
  }

  ghost function Sends(run: seq<Label>): nat {
    if run == [] then 0 else (if run[0].Send? || run[0].Handover? then 1 else 0) + Sends(run[1..])
  }

  lemma {:induction false} NothingRefused(capacity: nat, s: System, run: seq<Label>)
    requires CanRun(capacity, s, run) && s.submitted + Sends(run) <= capacity
    requires s.refused == 0 && s.droppedWrites == 0 && |s.queue| <= s.submitted == |s.accepted|
    ensures var t := Run(capacity, s, run);
            && t.refused == 0 && t.droppedWrites == 0
            && |t.accepted| == t.submitted == s.submitted + Sends(run)
    decreases |run|
  {
    if run == [] {
    } else {
      NothingRefused(capacity, Apply(capacity, s, run[0]), run[1..]);
    }
  }

  /** A write is refused only for want of room: as many writes as the queue has places are all accepted. */
  lemma NothingDroppedWithinCapacity(capacity: nat, initial: map<string, string>, run: seq<Label>)
    requires CanRun(capacity, Begin(initial), run) && Sends(run) <= capacity
    ensures var s := Run(capacity, Begin(initial), run);
            s.refused == 0 && s.droppedWrites == 0 && |s.accepted| == Sends(run)
  {
    NothingRefused(capacity, Begin(initial), run);
  }

  /** A send is refused exactly when it finds the queue full. */
  lemma RefusedIffFull(capacity: nat, s: System, op: WriteOp)
    ensures var t := Apply(capacity, s, Send(op));
            && (t.refused == s.refused + 1 && t.accepted == s.accepted <==> |s.queue| >= capacity)
            && (t.refused == s.refused && t.accepted == s.accepted + [op] && t.queue == s.queue + [op]
                <==> |s.queue| < capacity)
  {
  }

  /**
   * Once the worker has left, exactly the operations accepted before that moment have been
   * written; nothing was lost if and only if nothing was accepted afterwards.
   */
  lemma LostIffAcceptedLate(capacity: nat, initial: map<string, string>, run: seq<Label>)
    requires CanRun(capacity, Begin(initial), run)
    requires Run(capacity, Begin(initial), run).mode == Exited
    ensures var s := Run(capacity, Begin(initial), run);
            && s.exitMark <= |s.accepted|
            && s.executed == s.accepted[..s.exitMark]
            && s.queue == s.accepted[s.exitMark..]
            && (s.executed == s.accepted <==> |s.accepted| == s.exitMark)
  {
    EveryRun(capacity, initial, Begin(initial), run);
    var s := Run(capacity, Begin(initial), run);
    assert s.executed + [] + s.queue == s.accepted;
  }

  // ---- The drain ----

  ghost predicate IsWorkers(l: Label) {
    l.Take? || l.Write? || l.CountWritten? || l.NoticeStop? || l.Leave?
  }

  /** The worker's steps left: three for each queued operation, the rest of the one in hand, and the way out. */
  ghost function StepsLeft(s: System): nat {
    3 * |s.queue|
    + (match s.hand case Empty => 0 case Writing(_) => 2 case Written => 1)
    + (match s.mode case Serving => 2 case Draining => 1 case Exited => 0)
  }

  /** A stopped worker is never stuck before it has left. */
  lemma WorkerNeverStuck(s: System)
    requires s.stopped && s.mode != Exited
    ensures exists l :: IsWorkers(l) && Enabled(s, l)
  {
    if s.hand.Writing? {
      assert IsWorkers(Write(true)) && Enabled(s, Write(true));
    } else if s.hand.Written? {
      assert IsWorkers(CountWritten) && Enabled(s, CountWritten);
    } else if s.mode == Serving {
      assert IsWorkers(NoticeStop) && Enabled(s, NoticeStop);
    } else if s.queue != [] {
      assert IsWorkers(Take) && Enabled(s, Take);
    } else {
      assert IsWorkers(Leave) && Enabled(s, Leave);
    }
  }

  /** No new operation; senders may still be counting what they have sent. */
  ghost predicate NoMoreSends(run: seq<Label>) {
    forall i :: 0 <= i < |run| ==> !run[i].Send? && !run[i].Handover?
  }

  ghost function WorkersSteps(run: seq<Label>): nat {
    if run == [] then 0 else (if IsWorkers(run[0]) then 1 else 0) + WorkersSteps(run[1..])
  }

  /** Every step of a stopped worker brings it one step closer to its exit; nobody else's matters. */
  lemma StepsLeftStep(capacity: nat, initial: map<string, string>, s: System, l: Label)
    requires Inv(capacity, initial, s) && s.stopped && Enabled(s, l) && !l.Send? && !l.Handover?
    ensures var s' := Apply(capacity, s, l);
            && s'.stopped && s'.accepted == s.accepted
            && StepsLeft(s') == StepsLeft(s) - (if IsWorkers(l) then 1 else 0)
  {
    hide OrderInv, CountInv;
  }

  /** The exit comes with the last step left, and not before. */
  lemma ExitedIffNoStepsLeft(capacity: nat, initial: map<string, string>, s: System)
    requires Inv(capacity, initial, s) && (s.mode == Exited ==> s.queue == [])
    ensures s.mode == Exited <==> StepsLeft(s) == 0
    ensures s.mode == Exited ==> s.executed == s.accepted
  {
    hide Replayed;
    if s.mode == Exited {
      assert s.executed + [] + [] == s.executed;
    }
  }

  /**
   * Once stopped, and with no later send, the worker takes at most `StepsLeft` steps, whatever the
   * senders still have to count in between; it has left exactly when it has taken all of them, and
   * then everything accepted is written.
   */
  lemma {:induction false} DrainTerminates(capacity: nat, initial: map<string, string>, s: System, run: seq<Label>)
    requires Inv(capacity, initial, s) && s.stopped && (s.mode == Exited ==> s.queue == [])
    requires CanRun(capacity, s, run) && NoMoreSends(run)
    ensures WorkersSteps(run) <= StepsLeft(s)
    ensures Run(capacity, s, run).accepted == s.accepted
    ensures Run(capacity, s, run).mode == Exited <==> WorkersSteps(run) == StepsLeft(s)
    ensures WorkersSteps(run) == StepsLeft(s) ==> Run(capacity, s, run).executed == s.accepted
    decreases |run|
  {
    hide OrderInv, CountInv, ExitInv;
    if run == [] {
      ExitedIffNoStepsLeft(capacity, initial, s);
    } else {
      assert !run[0].Send? && !run[0].Handover?;
      StepsLeftStep(capacity, initial, s, run[0]);
      StepKeepsInv(capacity, initial, s, run[0]);
      DrainTerminates(capacity, initial, Apply(capacity, s, run[0]), run[1..]);
    }
  }

  ghost function InOrder(store: map<string, string>, ops: seq<WriteOp>): map<string, string>
    decreases |ops|
  {
    if ops == [] then store
    else InOrder(store[ops[0].key := ops[0].value], ops[1..])
  }

  lemma {:induction false} InOrderSnoc(store: map<string, string>, ops: seq<WriteOp>, op: WriteOp)
    ensures InOrder(store, ops + [op]) == InOrder(store, ops)[op.key := op.value]
    decreases |ops|
  {
    if ops == [] {
      assert [op][1..] == [];
    } else {
      InOrderSnoc(store[ops[0].key := ops[0].value], ops[1..], op);
      assert (ops + [op])[1..] == ops[1..] + [op];
    }
  }

  ghost predicate AllOk(oks: seq<bool>) {
    forall i :: 0 <= i < |oks| ==> oks[i]
  }

  lemma {:induction false} ReplayedAllOk(store: map<string, string>, ops: seq<WriteOp>, oks: seq<bool>)
    requires |ops| == |oks| && AllOk(oks)
    ensures Replayed(store, ops, oks) == InOrder(store, ops)
    decreases |ops|
  {
    if ops == [] {
    } else {
      var n := |ops| - 1;
      ReplayedAllOk(store, ops[..n], oks[..n]);
      InOrderSnoc(store, ops[..n], ops[n]);
      assert ops[..n] + [ops[n]] == ops;
    }
  }

  lemma {:induction false} AllSucceed(capacity: nat, s: System, run: seq<Label>)
    requires CanRun(capacity, s, run)
    requires forall i :: 0 <= i < |run| ==> run[i] != Write(false)
    requires AllOk(s.oks)
    ensures AllOk(Run(capacity, s, run).oks)
    decreases |run|
  {
    if run == [] {
    } else {
      var s' := Apply(capacity, s, run[0]);
      assert run[0].Write? ==> run[0] == Write(true);
      assert AllOk(s'.oks);
      AllSucceed(capacity, s', run[1..]);
    }
  }

  /** When every write succeeds, the store is the accepted operations applied in order of acceptance. */
  lemma StoreIsAcceptedInOrder(capacity: nat, initial: map<string, string>, run: seq<Label>)
    requires CanRun(capacity, Begin(initial), run)
    requires Run(capacity, Begin(initial), run).mode == Exited
    requires |Run(capacity, Begin(initial), run).accepted| == Run(capacity, Begin(initial), run).exitMark
    requires forall i :: 0 <= i < |run| ==> run[i] != Write(false)
    ensures var s := Run(capacity, Begin(initial), run);
            s.store == InOrder(initial, s.accepted)
  {
    EveryRun(capacity, initial, Begin(initial), run);
    LostIffAcceptedLate(capacity, initial, run);
    AllSucceed(capacity, Begin(initial), run);
    var s := Run(capacity, Begin(initial), run);
    ReplayedAllOk(initial, s.executed, s.oks);
  }
}
