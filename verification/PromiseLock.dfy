/**
 * The promise-chain mutex of `withWriteLock` and of the per-token create lock
 * (apps/web/lib/broker/sqlite-multi.ts). Callers are numbered in the order they call.
 */
module PromiseLock {
  import opened Common

  datatype Phase = Waiting | Running | Done

  /**
   * `tail` is the map entry: the caller whose `next` promise it holds. `previous[p]` is the tail that
   * caller `p` found, and so the promise it awaits.
   */
  datatype Lock = Lock(tail: Option<nat>, previous: seq<Option<nat>>, phases: seq<Phase>)

  const UNLOCKED := Lock(None, [], [])

  datatype Action = Enter | Start(p: nat) | Finish(p: nat) | EvictClient

  /** `next` of caller `p` settles when its own gate is released and the promise before it has settled. */
  predicate Settled(l: Lock, p: nat)
    decreases p
  {
    && p < |l.phases| && p < |l.previous| && l.phases[p] == Done
    && (l.previous[p].None? || (l.previous[p].value < p && Settled(l, l.previous[p].value)))
  }

  predicate Enabled(l: Lock, a: Action) {
    match a
    case Enter => true
    case Start(p) =>
      p < |l.phases| && p < |l.previous| && l.phases[p] == Waiting
      && (l.previous[p].None? || Settled(l, l.previous[p].value))
    case Finish(p) => p < |l.phases| && l.phases[p] == Running
    case EvictClient => true
  }

  function Step(l: Lock, a: Action): Lock
    requires Enabled(l, a)
  {
    match a
    case Enter => Lock(Some(|l.phases|), l.previous + [l.tail], l.phases + [Waiting])
    case Start(p) => l.(phases := l.phases[p := Running])
    case Finish(p) => Lock(if l.tail == Some(p) then None else l.tail, l.previous, l.phases[p := Done])
    case EvictClient => l.(tail := None)
  }

  predicate Runs(l: Lock, actions: seq<Action>)
    decreases actions
  {
    actions == [] || (Enabled(l, actions[0]) && Runs(Step(l, actions[0]), actions[1..]))
  }

  function Run(l: Lock, actions: seq<Action>): Lock
    requires Runs(l, actions)
    decreases actions
  {
    if actions == [] then l else Run(Step(l, actions[0]), actions[1..])
  }

  predicate AllDone(l: Lock, n: nat) { forall p :: 0 <= p < n && p < |l.phases| ==> l.phases[p] == Done }

  /** First come, first served: whoever has started left nobody unfinished before it. */
  predicate Fifo(l: Lock) {
    forall p, q :: 0 <= p < q < |l.phases| && l.phases[q] != Waiting ==> l.phases[p] == Done
  }

  /** The map holds the last caller until it is done, and nothing once everybody is. */
  predicate TailIsLast(l: Lock) {
    var n := |l.phases|;
    l.tail == if n > 0 && l.phases[n - 1] != Done then Some(n - 1) else None
  }

  ghost predicate Chained(l: Lock) {
    && |l.previous| == |l.phases|
    && Fifo(l) && TailIsLast(l)
    && (forall p :: 0 <= p < |l.phases| ==>
          (l.previous[p] == None && AllDone(l, p)) || (p > 0 && l.previous[p] == Some(p - 1)))
  }

  lemma LastDoneMeansAllDone(l: Lock)
    requires Chained(l) && l.tail.None?
    ensures AllDone(l, |l.phases|)
  {
    var n := |l.phases|;
    if n > 0 {
      assert l.phases[n - 1] == Done;
    }
  }

  lemma StepKeepsChained(l: Lock, a: Action)
    requires Chained(l) && Enabled(l, a) && !a.EvictClient?
    ensures Chained(Step(l, a))
  {
    if a.Enter? && l.tail.None? {
      LastDoneMeansAllDone(l);
    }
  }

  lemma {:induction false} RunKeepsChained(l: Lock, actions: seq<Action>)
    requires Chained(l) && Runs(l, actions) && EvictClient !in actions
    ensures Chained(Run(l, actions))
    decreases actions
  {
    if actions != [] {
      assert actions[0] in actions;
      StepKeepsChained(l, actions[0]);
      RunKeepsChained(Step(l, actions[0]), actions[1..]);
    }
  }

  /** Over every run without `evictClient`: never two at once, and in the order of the calls. */
  lemma MutualExclusionInFifoOrder(actions: seq<Action>)
    requires Runs(UNLOCKED, actions) && EvictClient !in actions
    ensures var l := Run(UNLOCKED, actions);
            && Fifo(l)
            && (forall p, q :: 0 <= p < |l.phases| && 0 <= q < |l.phases| && l.phases[p] == l.phases[q] == Running ==> p == q)
  {
    RunKeepsChained(UNLOCKED, actions);
  }

  /** The map entry is gone exactly when nobody waits or runs, so it neither leaks nor vanishes early. */
  lemma TailIsCleanedUpIffIdle(actions: seq<Action>)
    requires Runs(UNLOCKED, actions) && EvictClient !in actions
    ensures var l := Run(UNLOCKED, actions); l.tail.None? <==> AllDone(l, |l.phases|)
  {
    RunKeepsChained(UNLOCKED, actions);
    var l := Run(UNLOCKED, actions);
    if l.tail.None? {
      LastDoneMeansAllDone(l);
    } else {
      assert l.phases[|l.phases| - 1] != Done;
    }
  }

  // ---------------------------------------------------------------------------------------------
  // Every reachable state, evictions included
  // ---------------------------------------------------------------------------------------------

  /** A call waits for the one before it or for nobody, and the map holds the last call, unfinished, or nothing. */
  ghost predicate Linked(l: Lock) {
    var n := |l.phases|;
    && |l.previous| == n
    && (l.tail.None? || (n > 0 && l.tail == Some(n - 1) && l.phases[n - 1] != Done))
    && (forall p :: 0 <= p < n ==> l.previous[p] == None || (p > 0 && l.previous[p] == Some(p - 1)))
  }

  lemma {:induction false} RunKeepsLinked(l: Lock, actions: seq<Action>)
    requires Linked(l) && Runs(l, actions)
    ensures Linked(Run(l, actions))
    decreases actions
  {
    if actions != [] {
      RunKeepsLinked(Step(l, actions[0]), actions[1..]);
    }
  }

  lemma IdleIsChained(l: Lock)
    requires Linked(l) && AllDone(l, |l.phases|)
    ensures l.tail.None? && Chained(l)
  {
  }

  lemma {:induction false} DoneIsSettled(l: Lock, p: nat)
    requires Linked(l) && p < |l.phases| && AllDone(l, p + 1)
    ensures Settled(l, p)
  {
    if l.previous[p].Some? {
      DoneIsSettled(l, p - 1);
    }
  }

  /** No call is stuck, whatever was evicted: if somebody is unfinished, the first of them runs or may start. */
  lemma NobodyIsStuck(actions: seq<Action>, p: nat)
    requires Runs(UNLOCKED, actions)
    requires var l := Run(UNLOCKED, actions); p < |l.phases| && l.phases[p] != Done && AllDone(l, p)
    ensures var l := Run(UNLOCKED, actions); l.phases[p] == Running || Enabled(l, Start(p))
  {
    RunKeepsLinked(UNLOCKED, actions);
    var l := Run(UNLOCKED, actions);
    if l.previous[p].Some? {
      DoneIsSettled(l, p - 1);
    }
  }

  // ---------------------------------------------------------------------------------------------
  // Evicting the map entry
  // ---------------------------------------------------------------------------------------------

  ghost predicate TwoRunning(l: Lock) {
    exists p, q :: 0 <= p < q < |l.phases| && l.phases[p] == l.phases[q] == Running
  }

  /** Some run without a further eviction has two callers running at once. */
  ghost predicate CanOverlap(l: Lock) {
    exists actions :: EvictClient !in actions && Runs(l, actions) && TwoRunning(Run(l, actions))
  }

  lemma {:induction false} SettledIgnoresTail(l: Lock, m: Lock, p: nat)
    requires m == l.(tail := m.tail)
    ensures Settled(l, p) <==> Settled(m, p)
    decreases p
  {
    if p < |l.phases| && p < |l.previous| && l.previous[p].Some? && l.previous[p].value < p {
      SettledIgnoresTail(l, m, l.previous[p].value);
    }
  }

  lemma {:induction false} FirstUnfinished(l: Lock, n: nat) returns (p: nat)
    requires n <= |l.phases| && !AllDone(l, n)
    ensures p < n && l.phases[p] != Done && AllDone(l, p)
  {
    if AllDone(l, n - 1) {
      p := n - 1;
    } else {
      p := FirstUnfinished(l, n - 1);
    }
  }

  /** Without a map entry the next caller waits for nobody. */
  lemma NewcomerOverlaps(l: Lock, p: nat)
    requires l.tail.None? && |l.previous| == |l.phases| && p < |l.phases| && l.phases[p] == Running
    ensures var n := |l.phases|; Runs(l, [Enter, Start(n)]) && TwoRunning(Run(l, [Enter, Start(n)]))
  {
    var n := |l.phases|;
    var entered := Step(l, Enter);
    var started := Step(entered, Start(n));
    assert [Enter, Start(n)][1..] == [Start(n)] && [Start(n)][1..] == [];
    assert Runs(started, []) && Run(entered, [Start(n)]) == Run(started, []) == started;
    assert Run(l, [Enter, Start(n)]) == started;
    assert started.phases[p] == started.phases[n] == Running;
  }

  lemma RunAfterStart(l: Lock, p: nat, actions: seq<Action>)
    requires Enabled(l, Start(p)) && Runs(Step(l, Start(p)), actions)
    ensures Runs(l, [Start(p)] + actions) && Run(l, [Start(p)] + actions) == Run(Step(l, Start(p)), actions)
  {
    assert ([Start(p)] + actions)[1..] == actions;
  }

  lemma UnfinishedCallOverlaps(l: Lock)
    requires Linked(l) && !AllDone(l, |l.phases|)
    ensures CanOverlap(Step(l, EvictClient))
  {
    var e := Step(l, EvictClient);
    var n := |l.phases|;
    var p := FirstUnfinished(l, n);
    if l.phases[p] == Running {
      NewcomerOverlaps(e, p);
      assert EvictClient !in [Enter, Start(n)];
    } else {
      if l.previous[p].Some? {
        DoneIsSettled(l, p - 1);
        SettledIgnoresTail(l, e, p - 1);
      }
      var started := Step(e, Start(p));
      NewcomerOverlaps(started, p);
      RunAfterStart(e, p, [Enter, Start(n)]);
      assert EvictClient !in [Start(p)] + [Enter, Start(n)];
    }
  }

  /**
   * What an eviction costs, in every reachable state, whatever was evicted before: two callers can then
   * come to run at once if and only if some call was unfinished when the map entry was dropped.
   */
  lemma EvictionBreaksExclusionIff(actions: seq<Action>)
    requires Runs(UNLOCKED, actions)
    ensures var l := Run(UNLOCKED, actions);
            CanOverlap(Step(l, EvictClient)) <==> !AllDone(l, |l.phases|)
  {
    RunKeepsLinked(UNLOCKED, actions);
    var l := Run(UNLOCKED, actions);
    if AllDone(l, |l.phases|) {
      IdleIsChained(l);
      assert Step(l, EvictClient) == l;
      forall more | EvictClient !in more && Runs(l, more) ensures !TwoRunning(Run(l, more)) {
        RunKeepsChained(l, more);
      }
    } else {
      UnfinishedCallOverlaps(l);
    }
  }

  /** Every eviction in the run finds all calls done. */
  predicate EvictsIdle(l: Lock, actions: seq<Action>)
    requires Runs(l, actions)
    decreases actions
  {
    actions == []
    || ((actions[0].EvictClient? ==> AllDone(l, |l.phases|)) && EvictsIdle(Step(l, actions[0]), actions[1..]))
  }

  lemma {:induction false} IdleEvictionsKeepChained(l: Lock, actions: seq<Action>)
    requires Chained(l) && Runs(l, actions) && EvictsIdle(l, actions)
    ensures Chained(Run(l, actions))
    decreases actions
  {
    if actions != [] {
      if !actions[0].EvictClient? {
        StepKeepsChained(l, actions[0]);
      }
      IdleEvictionsKeepChained(Step(l, actions[0]), actions[1..]);
    }
  }

  /** Evictions of idle clients cost nothing, however many: exclusion and order hold throughout. */
  lemma IdleEvictionsKeepExclusion(actions: seq<Action>)
    requires Runs(UNLOCKED, actions) && EvictsIdle(UNLOCKED, actions)
    ensures Fifo(Run(UNLOCKED, actions)) && !TwoRunning(Run(UNLOCKED, actions))
  {
    IdleEvictionsKeepChained(UNLOCKED, actions);
  }
}
