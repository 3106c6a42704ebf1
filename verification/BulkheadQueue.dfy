// How far the bulkhead's queue can outgrow `maxQueue`: exactly by the calls that stand between
// loading the queue length and raising it.

module BulkheadQueue {
  import opened BulkheadClass
  import opened BulkheadProtocol
  import opened Counting

  /** The call has found the queue short enough and has still to join it. */
  ghost function Joining(g: BulkheadConfig): Call -> bool {
    (c: Call) => c.Compared? && c.seen < g.maxQueue
  }

  /** A step takes the queue over its limit exactly when it is the late join of a call that loaded an earlier length. */
  lemma OverflowStepIff(g: BulkheadConfig, s: System, l: Label)
    requires s.queued <= g.maxQueue && Enabled(g, s, l)
    ensures Apply(g, s, l).queued > g.maxQueue <==>
              l.Advance? && Joining(g)(s.calls[l.c]) && s.queued == g.maxQueue
  {
  }

  /** Only steps of the source, and in no state more than `k` calls that are about to join. */
  ghost predicate AtMostJoining(g: BulkheadConfig, s: System, run: seq<Label>, k: nat)
    requires CanRun(g, s, run)
    decreases |run|
  {
    && Count(s.calls, Joining(g)) <= k
    && (run == [] || (!run[0].JoinAtOnce? && AtMostJoining(g, Apply(g, s, run[0]), run[1..], k)))
  }

  lemma JoiningStep(g: BulkheadConfig, s: System, l: Label, k: nat)
    requires Enabled(g, s, l) && !l.JoinAtOnce? && s.next !in s.calls
    requires s.queued + Count(s.calls, Joining(g)) <= g.maxQueue - 1 + k
    requires Count(Apply(g, s, l).calls, Joining(g)) <= k
    ensures Apply(g, s, l).queued + Count(Apply(g, s, l).calls, Joining(g)) <= g.maxQueue - 1 + k
  {
    var s' := Apply(g, s, l);
    var c := if l.Enter? then s.next else l.c;
    assert s'.calls == s.calls[c := s'.calls[c]];
    CountMove(s.calls, c, s'.calls[c], Joining(g));
    hide Count;
  }

  lemma NextIsNew(g: BulkheadConfig, s: System)
    requires Inv(g, s)
    ensures s.next !in s.calls
  {
  }

  lemma {:induction false} JoiningRun(g: BulkheadConfig, s: System, run: seq<Label>, k: nat)
    requires g.Valid() && Inv(g, s) && CanRun(g, s, run) && AtMostJoining(g, s, run, k)
    requires s.queued + Count(s.calls, Joining(g)) <= g.maxQueue - 1 + k
    ensures Run(g, s, run).queued <= g.maxQueue - 1 + k
    decreases |run|
  {
    if run == [] {
    } else {
      hide Apply, Inv, Count;
      assert s.next !in s.calls by { NextIsNew(g, s); }
      JoiningStep(g, s, run[0], k);
      StepKeepsInv(g, s, run[0]);
      JoiningRun(g, Apply(g, s, run[0]), run[1..], k);
    }
  }

  /** If no more than `k` calls at a time stand between load and add, the queue exceeds its limit by at most `k - 1`. */
  lemma QueueBound(g: BulkheadConfig, run: seq<Label>, k: nat)
    requires g.Valid() && k >= 1 && CanRun(g, BEGIN, run) && AtMostJoining(g, BEGIN, run, k)
    ensures Run(g, BEGIN, run).queued <= g.maxQueue + k - 1
  {
    assert At(BEGIN.calls, Joining(g)) == {};
    JoiningRun(g, BEGIN, run, k);
  }

  // ---- The bound is tight ----

  /** Some run of that kind ends in `s`. */
  ghost predicate Reaches(g: BulkheadConfig, k: nat, s: System) {
    exists run :: CanRun(g, BEGIN, run) && AtMostJoining(g, BEGIN, run, k) && Run(g, BEGIN, run) == s
  }

  lemma {:induction false} AtMostJoiningSnoc(g: BulkheadConfig, s: System, run: seq<Label>, l: Label, k: nat)
    requires CanRun(g, s, run) && AtMostJoining(g, s, run, k)
    requires Enabled(g, Run(g, s, run), l) && !l.JoinAtOnce?
    requires Count(Apply(g, Run(g, s, run), l).calls, Joining(g)) <= k
    ensures CanRun(g, s, run + [l]) && AtMostJoining(g, s, run + [l], k)
    ensures Run(g, s, run + [l]) == Apply(g, Run(g, s, run), l)
    decreases |run|
  {
    hide Apply, Count, Enabled;
    if run == [] {
      assert run + [l] == [l] && [l][1..] == [];
    } else {
      AtMostJoiningSnoc(g, Apply(g, s, run[0]), run[1..], l, k);
      assert (run + [l])[1..] == run[1..] + [l];
    }
  }

  /** One more step, which moves one call. */
  lemma Onwards(g: BulkheadConfig, k: nat, s: System, l: Label) returns (t: System)
    requires Reaches(g, k, s) && Enabled(g, s, l) && !l.JoinAtOnce? && (l.Enter? ==> s.next !in s.calls)
    requires var c := if l.Enter? then s.next else l.c;
             var was := c in s.calls && Joining(g)(s.calls[c]);
             Count(s.calls, Joining(g)) - One(was) + One(Joining(g)(Apply(g, s, l).calls[c])) <= k
    ensures t == Apply(g, s, l) && Reaches(g, k, t)
    ensures var c := if l.Enter? then s.next else l.c;
            var was := c in s.calls && Joining(g)(s.calls[c]);
            Count(t.calls, Joining(g)) == Count(s.calls, Joining(g)) - One(was) + One(Joining(g)(t.calls[c]))
  {
    t := Apply(g, s, l);
    var c := if l.Enter? then s.next else l.c;
    assert t.calls == s.calls[c := t.calls[c]];
    CountMove(s.calls, c, t.calls[c], Joining(g));
    hide Count;
    var run :| CanRun(g, BEGIN, run) && AtMostJoining(g, BEGIN, run, k) && Run(g, BEGIN, run) == s;
    AtMostJoiningSnoc(g, BEGIN, run, l, k);
  }

  /** All calls known are numbered below `next`, and `joining` of them are about to join. */
  ghost predicate Stands(g: BulkheadConfig, k: nat, s: System, slots: int, queued: int, joining: nat) {
    && Reaches(g, k, s) && s.slots == slots && s.queued == queued && Count(s.calls, Joining(g)) == joining
    && forall c :: c in s.calls ==> c < s.next
  }

  lemma {:induction false} FillSlots(g: BulkheadConfig, k: nat, n: nat) returns (s: System)
    requires g.Valid() && n <= g.Slots()
    ensures Stands(g, k, s, n, 0, 0)
  {
    if n == 0 {
      s := BEGIN;
      assert At(BEGIN.calls, Joining(g)) == {};
      assert CanRun(g, BEGIN, []) && AtMostJoining(g, BEGIN, [], k) && Run(g, BEGIN, []) == BEGIN;
    } else {
      s := FillSlots(g, k, n - 1);
      hide Reaches, Count;
      var c := s.next;
      s := Onwards(g, k, s, Enter);
      s := Onwards(g, k, s, Advance(c));
    }
  }

  /** A new call finds all slots taken and loads the length of the queue. */
  lemma Load(g: BulkheadConfig, k: nat, s: System, queued: int, joining: nat) returns (t: System)
    requires g.Valid() && Stands(g, k, s, g.Slots(), queued, joining) && queued < g.maxQueue && joining < k
    ensures Stands(g, k, t, g.Slots(), queued, joining + 1)
    ensures t.next == s.next + 1 && t.calls == s.calls[s.next := Compared(queued)]
  {
    hide Reaches, Count;
    var c := s.next;
    t := Onwards(g, k, s, Enter);
    t := Onwards(g, k, t, Advance(c));
    t := Onwards(g, k, t, Advance(c));
  }

  /** A call that loaded a length below the limit joins. */
  lemma Join(g: BulkheadConfig, k: nat, s: System, c: nat, queued: int, joining: nat) returns (t: System)
    requires Stands(g, k, s, g.Slots(), queued, joining) && 0 < joining <= k
    requires c in s.calls && Joining(g)(s.calls[c])
    ensures Stands(g, k, t, g.Slots(), queued + 1, joining - 1)
    ensures t.next == s.next && t.calls == s.calls[c := Queued]
  {
    hide Reaches, Count;
    t := Onwards(g, k, s, Advance(c));
  }

  lemma {:induction false} FillQueue(g: BulkheadConfig, k: nat, n: nat) returns (s: System)
    requires g.Valid() && k >= 1 && n < g.maxQueue
    ensures Stands(g, k, s, g.Slots(), n, 0)
  {
    if n == 0 {
      s := FillSlots(g, k, g.Slots());
    } else {
      hide Stands;
      s := FillQueue(g, k, n - 1);
      var c := s.next;
      s := Load(g, k, s, n - 1, 0);
      s := Join(g, k, s, c, n - 1, 1);
    }
  }

  /** The calls from `first` on, `n` of them, have loaded one length below the limit. */
  ghost predicate Loaded(g: BulkheadConfig, s: System, first: nat, n: nat) {
    first + n == s.next && forall c :: first <= c < s.next ==> c in s.calls && s.calls[c] == Compared(g.maxQueue - 1)
  }

  lemma {:induction false} LoadMany(g: BulkheadConfig, k: nat, n: nat) returns (s: System, first: nat)
    requires g.Valid() && 1 <= k && n <= k
    ensures Stands(g, k, s, g.Slots(), g.maxQueue - 1, n) && Loaded(g, s, first, n)
  {
    if n == 0 {
      s := FillQueue(g, k, g.maxQueue - 1);
      first := s.next;
    } else {
      hide Stands;
      s, first := LoadMany(g, k, n - 1);
      s := Load(g, k, s, g.maxQueue - 1, n - 1);
    }
  }

  lemma {:induction false} JoinMany(g: BulkheadConfig, k: nat, s: System, first: nat, n: nat) returns (t: System)
    requires 0 <= n <= k && Stands(g, k, s, g.Slots(), g.maxQueue - 1 + k - n, n)
    requires forall c :: first <= c < first + n ==> c in s.calls && s.calls[c] == Compared(g.maxQueue - 1)
    ensures Reaches(g, k, t) && t.queued == g.maxQueue - 1 + k
    decreases n
  {
    if n == 0 {
      t := s;
    } else {
      var c := first + n - 1;
      t := Join(g, k, s, c, g.maxQueue - 1 + k - n, n);
      hide Stands;
      t := JoinMany(g, k, t, first, n - 1);
    }
  }

  /** Under every configuration `k` calls between load and add do take the queue `k - 1` over its limit. */
  lemma QueueBoundTight(g: BulkheadConfig, k: nat) returns (s: System)
    requires g.Valid() && k >= 1
    ensures Reaches(g, k, s) && s.queued == g.maxQueue + k - 1
  {
    var first;
    s, first := LoadMany(g, k, k);
    s := JoinMany(g, k, s, first, k);
  }
}
