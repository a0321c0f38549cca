/**
 * The paged poll-tail subscription over the channel log, interleaved with publishes, closes,
 * reopenings and transient failures (apps/web/lib/broker/sqlite-multi.ts).
 */
module Subscription {
  import opened Common
  import opened Channel

  const PAGE := 500
  const MAX_FAILURES := 3

  function Frames(rows: seq<Row>): seq<Wire> {
    seq(|rows|, i requires 0 <= i < |rows| => rows[i].frame)
  }

  /** The rows with an id above `pos`. */
  function Above(rows: seq<Row>, pos: nat): seq<Row> {
    if rows == [] then []
    else Above(rows[..|rows| - 1], pos) + (if rows[|rows| - 1].id > pos then [rows[|rows| - 1]] else [])
  }

  function Take<T>(rows: seq<T>, n: nat): seq<T> {
    if n < |rows| then rows[..n] else rows
  }

  /** SELECT id, frame FROM frames WHERE gen = ? AND id > ? ORDER BY id LIMIT 500. */
  function Page(db: Db, gen: nat, pos: nat): seq<Row> {
    Take(Above(OfGen(db.log, gen), pos), PAGE)
  }

  /** Where the in-memory backend starts: the same clamp of a start index into [0, len]. */
  function Clamp(start: Option<int>, len: nat): nat {
    match start
    case None => 0
    case Some(n) =>
      if n < 0 then (if len + n > 0 then len + n else 0)
      else if n < len then n else len
  }

  /** The id cursor a subscription polls from, as the read transaction computes it. */
  function ResolveCursor(db: Db, gen: nat, start: Option<int>): nat {
    var rows := OfGen(db.log, gen);
    var wanted := match start
                  case None => 0
                  case Some(n) => if n >= 0 then n else if |rows| + n > 0 then |rows| + n else 0;
    if wanted <= 0 then 0
    else if wanted - 1 < |rows| then rows[wanted - 1].id
    else if rows == [] then 0 else rows[|rows| - 1].id
  }

  // ---------------------------------------------------------------------------------------------
  // The interleaved system
  // ---------------------------------------------------------------------------------------------

  datatype Phase =
    | Opening                // nothing read yet
    | Pinned                 // the incarnation is read, the cursor is not
    | Fetching               // about to query the next page
    | Checking               // the page was empty: about to query the channel row
    | Ended                  // closed by the poll loop
    | Failed                 // errored after too many failures in a row
    | Stopped                // cancelled by the consumer
    | Refused                // the channel was closed when subscribing

  /**
   * A subscriber. `skipped` and `quiet` are history: how many frames of the incarnation precede the
   * start, and how long its log was at the last empty page.
   */
  datatype Sub = Sub(
    phase: Phase,
    start: Option<int>,
    gen: nat,
    pos: nat,
    failures: nat,
    delivered: seq<Wire>,
    skipped: nat,
    quiet: nat)

  function Subscribe(start: Option<int>): Sub {
    Sub(Opening, start, 0, 0, 0, [], 0, 0)
  }

  datatype System = System(db: Db, sub: Sub)

  datatype Action =
    | Broker(e: Event)       // somebody else's publish, close or reopening
    | ReadChannel            // SELECT gen, closed
    | Resolve                // the cursor transaction
    | Fetch(n: nat)          // a page query; `n` frames are enqueued before the consumer goes away
    | Check                  // SELECT closed, gen
    | Fail(transient: bool)  // a failed page or channel-row query
    | Cancel

  predicate Enabled(s: System, a: Action) {
    match a
    case Broker(_) => true
    case ReadChannel => s.sub.phase.Opening?
    case Resolve => s.sub.phase.Pinned?
    case Fetch(n) => s.sub.phase.Fetching? && n <= |Page(s.db, s.sub.gen, s.sub.pos)|
    case Check => s.sub.phase.Checking?
    case Fail(_) => s.sub.phase.Fetching? || s.sub.phase.Checking?
    case Cancel => s.sub.phase.Fetching? || s.sub.phase.Checking?
  }

  function Step(s: System, bus: bool, a: Action): System
    requires Enabled(s, a)
  {
    var db, sub := s.db, s.sub;
    match a
    case Broker(e) => s.(db := Channel.Apply(db, bus, e))
    case ReadChannel =>
      s.(sub := if db.closed then sub.(phase := Refused) else sub.(phase := Pinned, gen := db.gen))
    case Resolve =>
      s.(sub := sub.(phase := Fetching,
                     pos := ResolveCursor(db, sub.gen, sub.start),
                     skipped := Clamp(sub.start, |OfGen(db.log, sub.gen)|)))
    case Fetch(n) =>
      var rows := Page(db, sub.gen, sub.pos);
      if rows == [] then s.(sub := sub.(phase := Checking, quiet := |OfGen(db.log, sub.gen)|))
      else if n < |rows| then s.(sub := sub.(phase := Stopped, delivered := sub.delivered + Frames(rows[..n])))
      else s.(sub := sub.(failures := 0, pos := rows[|rows| - 1].id, delivered := sub.delivered + Frames(rows)))
    case Check =>
      var ended := db.closed || db.gen != sub.gen;
      s.(sub := sub.(failures := 0, phase := if ended then Ended else Fetching))
    case Fail(transient) =>
      if transient && sub.failures + 1 < MAX_FAILURES
      then s.(sub := sub.(failures := sub.failures + 1, phase := Fetching))
      else s.(sub := sub.(phase := Failed))
    case Cancel => s.(sub := sub.(phase := Stopped))
  }

  predicate Runs(s: System, bus: bool, actions: seq<Action>)
    decreases actions
  {
    actions == [] || (Enabled(s, actions[0]) && Runs(Step(s, bus, actions[0]), bus, actions[1..]))
  }

  function Run(s: System, bus: bool, actions: seq<Action>): System
    requires Runs(s, bus, actions)
    decreases actions
  {
    if actions == [] then s else Run(Step(s, bus, actions[0]), bus, actions[1..])
  }

  // ---------------------------------------------------------------------------------------------
  // Cursors
  // ---------------------------------------------------------------------------------------------

  ghost predicate AscendingIds(rows: seq<Row>, bound: nat) {
    && (forall i, j :: 0 <= i < j < |rows| ==> rows[i].id < rows[j].id)
    && (forall i :: 0 <= i < |rows| ==> 0 < rows[i].id <= bound)
  }

  lemma {:induction false} OfGenMembers(log: seq<Row>, gen: nat)
    ensures forall r :: r in OfGen(log, gen) <==> r in log && r.gen == gen
  {
    if log != [] {
      OfGenMembers(log[..|log| - 1], gen);
      assert log == log[..|log| - 1] + [log[|log| - 1]];
    }
  }

  lemma AscendingSnoc(rows: seq<Row>, r: Row, bound: nat)
    requires AscendingIds(rows, bound) && 0 < r.id <= bound
    requires forall x :: x in rows ==> x.id < r.id
    ensures AscendingIds(rows + [r], bound)
  {
    assert forall i :: 0 <= i < |rows| ==> rows[i] in rows;
  }

  lemma {:induction false} OfGenAscends(log: seq<Row>, gen: nat, bound: nat)
    requires AscendingIds(log, bound)
    ensures AscendingIds(OfGen(log, gen), bound)
  {
    if log != [] {
      var init, r := log[..|log| - 1], log[|log| - 1];
      OfGenAscends(init, gen, bound);
      OfGenMembers(init, gen);
      if r.gen == gen {
        AscendingSnoc(OfGen(init, gen), r, bound);
      }
    }
  }

  /** `pos` separates the first `k` rows from the rest. */
  ghost predicate Splits(rows: seq<Row>, pos: nat, k: nat) {
    && k <= |rows|
    && (forall i :: 0 <= i < k ==> rows[i].id <= pos)
    && (forall i :: k <= i < |rows| ==> pos < rows[i].id)
  }

  lemma SliceSnoc<T>(init: seq<T>, r: T, k: nat)
    requires k <= |init|
    ensures (init + [r])[k..] == init[k..] + [r]
  {
  }

  lemma {:induction false} AboveSplit(rows: seq<Row>, pos: nat, k: nat)
    requires Splits(rows, pos, k)
    ensures Above(rows, pos) == rows[k..]
  {
    if rows != [] {
      var init, r := rows[..|rows| - 1], rows[|rows| - 1];
      if k < |rows| {
        AboveSplit(init, pos, k);
        SliceSnoc(init, r, k);
        assert rows == init + [r];
      } else {
        AboveSplit(init, pos, |init|);
      }
    }
  }

  /** The id cursor skips exactly what the in-memory backend's index skips, however sparse the ids. */
  lemma CursorIsClamp(db: Db, gen: nat, start: Option<int>)
    requires Sound(db)
    ensures var rows := OfGen(db.log, gen);
            Splits(rows, ResolveCursor(db, gen, start), Clamp(start, |rows|))
    ensures Above(OfGen(db.log, gen), ResolveCursor(db, gen, start))
            == OfGen(db.log, gen)[Clamp(start, |OfGen(db.log, gen)|)..]
    ensures ResolveCursor(db, gen, start) <= db.lastId
  {
    OfGenAscends(db.log, gen, db.lastId);
    AboveSplit(OfGen(db.log, gen), ResolveCursor(db, gen, start), Clamp(start, |OfGen(db.log, gen)|));
  }

  // ---------------------------------------------------------------------------------------------
  // The invariant
  // ---------------------------------------------------------------------------------------------

  predicate Polling(p: Phase) { !p.Opening? && !p.Pinned? && !p.Refused? }

  /** Everything delivered so far is the incarnation's log from the start index, without a gap. */
  ghost predicate Faithful(s: System) {
    var rows := OfGen(s.db.log, s.sub.gen);
    && s.sub.skipped + |s.sub.delivered| <= |rows|
    && s.sub.delivered == Frames(rows[s.sub.skipped..s.sub.skipped + |s.sub.delivered|])
  }

  /** ... and the cursor stands right behind it. */
  ghost predicate AtCursor(s: System) {
    var rows := OfGen(s.db.log, s.sub.gen);
    && s.sub.pos <= s.db.lastId
    && Splits(rows, s.sub.pos, s.sub.skipped + |s.sub.delivered|)
  }

  ghost predicate Invariant(s: System) {
    && Sound(s.db)
    && s.sub.gen <= s.db.gen
    && s.sub.failures < MAX_FAILURES
    && (!Polling(s.sub.phase) ==> s.sub.delivered == [])
    && (Polling(s.sub.phase) ==> Faithful(s))
    && (s.sub.phase.Fetching? || s.sub.phase.Checking? ==> AtCursor(s))
    && (s.sub.phase.Checking? ==>
          s.sub.skipped + |s.sub.delivered| == s.sub.quiet <= |OfGen(s.db.log, s.sub.gen)|)
    && (s.sub.phase.Ended? ==>
          && s.sub.skipped + |s.sub.delivered| == s.sub.quiet <= |OfGen(s.db.log, s.sub.gen)|
          && (s.db.closed || s.sub.gen < s.db.gen))
  }

  /** An event leaves the rows of an incarnation as they are, or adds one above every id so far. */
  lemma EventExtends(db: Db, bus: bool, e: Event, gen: nat)
    requires Sound(db)
    ensures var rows, rows' := OfGen(db.log, gen), OfGen(Channel.Apply(db, bus, e).log, gen);
            rows' == rows || (|rows'| == |rows| + 1 && rows' == rows + [rows'[|rows|]] && db.lastId < rows'[|rows|].id)
    ensures (db.closed || gen < db.gen) && gen <= db.gen ==>
              OfGen(Channel.Apply(db, bus, e).log, gen) == OfGen(db.log, gen)
              && (Channel.Apply(db, bus, e).closed || gen < Channel.Apply(db, bus, e).gen)
  {
    ApplyAdds(db, bus, e);
    var added := Added(db, bus, e);
    if added == [] {
      assert db.log + added == db.log;
    } else {
      OfGenSnoc(db.log, added[0], gen);
      assert added == [added[0]];
    }
  }

  lemma BrokerKeepsFaithful(s: System, bus: bool, e: Event)
    requires Sound(s.db) && Faithful(s)
    ensures Faithful(Step(s, bus, Broker(e)))
  {
    EventExtends(s.db, bus, e, s.sub.gen);
    var rows := OfGen(s.db.log, s.sub.gen);
    var rows' := OfGen(Channel.Apply(s.db, bus, e).log, s.sub.gen);
    var i, j := s.sub.skipped, s.sub.skipped + |s.sub.delivered|;
    assert rows'[i..j] == rows[i..j];
  }

  lemma BrokerKeepsCursor(s: System, bus: bool, e: Event)
    requires Sound(s.db) && AtCursor(s)
    ensures AtCursor(Step(s, bus, Broker(e)))
  {
    EventExtends(s.db, bus, e, s.sub.gen);
    ApplyKeepsSound(s.db, bus, e);
    ApplyGrows(s.db, bus, e);
  }

  lemma BrokerKeepsInvariant(s: System, bus: bool, e: Event)
    requires Invariant(s)
    ensures Invariant(Step(s, bus, Broker(e)))
  {
    ApplyKeepsSound(s.db, bus, e);
    ApplyGrows(s.db, bus, e);
    EventExtends(s.db, bus, e, s.sub.gen);
    if Polling(s.sub.phase) {
      BrokerKeepsFaithful(s, bus, e);
    }
    if s.sub.phase.Fetching? || s.sub.phase.Checking? {
      BrokerKeepsCursor(s, bus, e);
    }
  }

  /** A page is the next stretch of the incarnation's log. */
  lemma PageIsNext(s: System)
    requires Sound(s.db) && AtCursor(s)
    ensures var rows, page := OfGen(s.db.log, s.sub.gen), Page(s.db, s.sub.gen, s.sub.pos);
            var k := s.sub.skipped + |s.sub.delivered|;
            && k + |page| <= |rows|
            && page == rows[k..k + |page|]
            && (page == [] ==> k == |rows|)
  {
    var rows := OfGen(s.db.log, s.sub.gen);
    var k := s.sub.skipped + |s.sub.delivered|;
    AboveSplit(rows, s.sub.pos, k);
  }

  lemma TakingIsFaithful(s: System, m: nat, sub': Sub)
    requires Faithful(s) && Sound(s.db) && AtCursor(s) && m <= |Page(s.db, s.sub.gen, s.sub.pos)|
    requires sub'.gen == s.sub.gen && sub'.skipped == s.sub.skipped
    requires sub'.delivered == s.sub.delivered + Frames(Page(s.db, s.sub.gen, s.sub.pos)[..m])
    ensures Faithful(s.(sub := sub'))
    ensures |sub'.delivered| == |s.sub.delivered| + m
  {
    var rows, page := OfGen(s.db.log, s.sub.gen), Page(s.db, s.sub.gen, s.sub.pos);
    var i, k := s.sub.skipped, s.sub.skipped + |s.sub.delivered|;
    PageIsNext(s);
    assert page[..m] == rows[k..k + m];
    FramesExtend(rows, i, k, k + m);
  }

  lemma AdvancingKeepsCursor(s: System, sub': Sub)
    requires Sound(s.db) && AtCursor(s)
    requires var page := Page(s.db, s.sub.gen, s.sub.pos);
             && page != []
             && sub'.gen == s.sub.gen && sub'.skipped == s.sub.skipped
             && sub'.pos == page[|page| - 1].id
             && |sub'.delivered| == |s.sub.delivered| + |page|
    ensures AtCursor(s.(sub := sub'))
  {
    var rows, page := OfGen(s.db.log, s.sub.gen), Page(s.db, s.sub.gen, s.sub.pos);
    var k := s.sub.skipped + |s.sub.delivered|;
    OfGenAscends(s.db.log, s.sub.gen, s.db.lastId);
    PageIsNext(s);
    assert page[|page| - 1] == rows[k + |page| - 1];
  }

  lemma FetchKeepsInvariant(s: System, bus: bool, n: nat)
    requires Invariant(s) && Enabled(s, Fetch(n))
    ensures Invariant(Step(s, bus, Fetch(n)))
  {
    var page := Page(s.db, s.sub.gen, s.sub.pos);
    var sub' := Step(s, bus, Fetch(n)).sub;
    PageIsNext(s);
    if page != [] && n < |page| {
      TakingIsFaithful(s, n, sub');
    } else if page != [] {
      assert page[..|page|] == page;
      TakingIsFaithful(s, |page|, sub');
      AdvancingKeepsCursor(s, sub');
    }
  }

  lemma FramesExtend(rows: seq<Row>, i: nat, j: nat, k: nat)
    requires i <= j <= k <= |rows|
    ensures Frames(rows[i..j]) + Frames(rows[j..k]) == Frames(rows[i..k])
  {
  }

  lemma StepKeepsInvariant(s: System, bus: bool, a: Action)
    requires Invariant(s) && Enabled(s, a)
    ensures Invariant(Step(s, bus, a))
  {
    match a
    case Broker(e) => BrokerKeepsInvariant(s, bus, e);
    case ReadChannel =>
    case Resolve => CursorIsClamp(s.db, s.sub.gen, s.sub.start);
    case Fetch(n) => FetchKeepsInvariant(s, bus, n);
    case Check =>
    case Fail(_) =>
    case Cancel =>
  }

  lemma {:induction false} RunKeepsInvariant(s: System, bus: bool, actions: seq<Action>)
    requires Invariant(s) && Runs(s, bus, actions)
    ensures Invariant(Run(s, bus, actions))
    decreases actions
  {
    if actions != [] {
      StepKeepsInvariant(s, bus, actions[0]);
      RunKeepsInvariant(Step(s, bus, actions[0]), bus, actions[1..]);
    }
  }

  // ---------------------------------------------------------------------------------------------
  // Main results
  // ---------------------------------------------------------------------------------------------

  /** The start index was resolved at step `k`, against the log of the incarnation as it was then. */
  ghost predicate ResolvedAt(s: System, bus: bool, actions: seq<Action>, k: nat, sub: Sub) {
    && k < |actions| && actions[k].Resolve? && Runs(s, bus, actions[..k])
    && (var before := Run(s, bus, actions[..k]);
        && before.sub.gen == sub.gen
        && sub.skipped == Clamp(s.sub.start, |OfGen(before.db.log, sub.gen)|))
  }

  lemma {:induction false} ResolutionStays(s: System, bus: bool, actions: seq<Action>)
    requires Runs(s, bus, actions) && Polling(s.sub.phase)
    ensures var end := Run(s, bus, actions).sub;
            Polling(end.phase) && end.gen == s.sub.gen && end.skipped == s.sub.skipped
    decreases actions
  {
    if actions != [] {
      ResolutionStays(Step(s, bus, actions[0]), bus, actions[1..]);
    }
  }

  lemma {:induction false} RefusedStays(s: System, bus: bool, actions: seq<Action>)
    requires Runs(s, bus, actions) && s.sub.phase.Refused?
    ensures Run(s, bus, actions).sub == s.sub
    decreases actions
  {
    if actions != [] {
      RefusedStays(Step(s, bus, actions[0]), bus, actions[1..]);
    }
  }

  /** A polling subscriber has resolved its start. */
  lemma {:induction false} PollingWasResolved(s: System, bus: bool, actions: seq<Action>) returns (k: nat)
    requires Runs(s, bus, actions) && (s.sub.phase.Opening? || s.sub.phase.Pinned?)
    requires Polling(Run(s, bus, actions).sub.phase)
    ensures ResolvedAt(s, bus, actions, k, Run(s, bus, actions).sub)
    decreases actions
  {
    var next, rest := Step(s, bus, actions[0]), actions[1..];
    if actions[0].Resolve? {
      k := 0;
      assert actions[..0] == [];
      ResolutionStays(next, bus, rest);
    } else {
      if next.sub.phase.Refused? {
        RefusedStays(next, bus, rest);
      }
      var m := PollingWasResolved(next, bus, rest);
      k := m + 1;
      RunCons(s, bus, actions[0], rest[..m]);
      assert actions[..k] == [actions[0]] + rest[..m];
    }
  }

  /**
   * Refinement of the simple list: after any interleaving, what a subscriber has been given is a
   * prefix of its incarnation's log from the start index on, clamped into the log as it was when the
   * index was resolved. No gap, no repeat, no other incarnation.
   */
  lemma DeliversPrefixOfLog(db: Db, bus: bool, start: Option<int>, actions: seq<Action>)
    requires Sound(db) && Runs(System(db, Subscribe(start)), bus, actions)
    ensures var s := Run(System(db, Subscribe(start)), bus, actions);
            var rows := OfGen(s.db.log, s.sub.gen);
            && (Polling(s.sub.phase) ==>
                  && (exists k :: ResolvedAt(System(db, Subscribe(start)), bus, actions, k, s.sub))
                  && s.sub.skipped <= |rows| && s.sub.delivered <= Frames(rows[s.sub.skipped..]))
            && (!Polling(s.sub.phase) ==> s.sub.delivered == [])
  {
    var s := Run(System(db, Subscribe(start)), bus, actions);
    RunKeepsInvariant(System(db, Subscribe(start)), bus, actions);
    if Polling(s.sub.phase) {
      var k := PollingWasResolved(System(db, Subscribe(start)), bus, actions);
      var rows := OfGen(s.db.log, s.sub.gen);
      var i, j := s.sub.skipped, s.sub.skipped + |s.sub.delivered|;
      FramesExtend(rows, i, j, |rows|);
      assert rows[i..] == rows[i..|rows|];
    }
  }

  /**
   * When the poll loop ends a stream, its incarnation is over, and the subscriber has every frame of
   * it exactly when none was appended between the last empty page and the channel-row query.
   */
  lemma EndedStreamIsCompleteIffQuiet(db: Db, bus: bool, start: Option<int>, actions: seq<Action>, later: seq<Event>)
    requires Sound(db) && Runs(System(db, Subscribe(start)), bus, actions)
    requires Run(System(db, Subscribe(start)), bus, actions).sub.phase.Ended?
    ensures var s := Run(System(db, Subscribe(start)), bus, actions);
            var rows := OfGen(Channel.Run(s.db, bus, later).log, s.sub.gen);
            && s.sub.skipped <= |rows|
            && (s.sub.delivered == Frames(rows[s.sub.skipped..]) <==> |rows| == s.sub.quiet)
  {
    var s := Run(System(db, Subscribe(start)), bus, actions);
    RunKeepsInvariant(System(db, Subscribe(start)), bus, actions);
    PastIncarnationsAreFrozen(s.db, bus, later, s.sub.gen);
    var rows := OfGen(s.db.log, s.sub.gen);
    assert |Frames(rows[s.sub.skipped..])| == |rows| - s.sub.skipped;
    if |rows| == s.sub.quiet {
      assert rows[s.sub.skipped..] == rows[s.sub.skipped..s.sub.skipped + |s.sub.delivered|];
    }
  }

  /** A frame published and a close landing between the two queries of a poll: the frame is missed. */
  lemma PublishThenCloseCanBeMissed(w: Wire)
    ensures var actions := [ReadChannel, Resolve, Fetch(0), Broker(Put(w)), Broker(Shut), Check];
            var s0 := System(FRESH, Subscribe(None));
            && Runs(s0, false, actions)
            && Run(s0, false, actions).sub.phase.Ended?
            && Run(s0, false, actions).sub.delivered == []
            && Frames(OfGen(Run(s0, false, actions).db.log, 0)) == [w]
  {
    var actions := [ReadChannel, Resolve, Fetch(0), Broker(Put(w)), Broker(Shut), Check];
    var s0 := System(FRESH, Subscribe(None));
    var sub := Subscribe(None).(phase := Fetching);
    var s1 := System(FRESH, sub.(phase := Pinned));
    var s2 := System(FRESH, sub);
    var s3 := System(FRESH, sub.(phase := Checking));
    var log := [Row(1, 0, w)];
    var s4 := System(FRESH.(log := log, lastId := 1), s3.sub);
    var s5 := System(s4.db.(closed := true), s3.sub);
    assert Step(s0, false, ReadChannel) == s1;
    assert Step(s1, false, Resolve) == s2;
    assert Step(s2, false, Fetch(0)) == s3;
    assert Step(s3, false, Broker(Put(w))) == s4;
    OfGenSnoc([], Row(1, 0, w), 0);
    assert [] + log == log;
    RunCons(s5, false, Check, []);
    RunCons(s4, false, Broker(Shut), [Check] + []);
    RunCons(s3, false, Broker(Put(w)), [Broker(Shut), Check]);
    RunCons(s2, false, Fetch(0), [Broker(Put(w)), Broker(Shut), Check]);
    RunCons(s1, false, Resolve, [Fetch(0), Broker(Put(w)), Broker(Shut), Check]);
    RunCons(s0, false, ReadChannel, [Resolve, Fetch(0), Broker(Put(w)), Broker(Shut), Check]);
  }

  lemma RunCons(s: System, bus: bool, a: Action, rest: seq<Action>)
    requires Enabled(s, a) && Runs(Step(s, bus, a), bus, rest)
    ensures Runs(s, bus, [a] + rest)
    ensures Run(s, bus, [a] + rest) == Run(Step(s, bus, a), bus, rest)
  {
    assert ([a] + rest)[1..] == rest;
  }
}
