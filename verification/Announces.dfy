/**
 * Which announce of a session wins, how fresh a row is, and the connection ladder
 * (apps/web/app/lib/viewer.ts). Wall-clock times are real numbers of milliseconds.
 */
module Announces {
  import opened Common

  const CONNECTED_WINDOW_MS := 45000.0
  const ANNOUNCE_FUTURE_SKEW_MS := 5000.0
  const RECONNECTING_WINDOW_MS := 30000.0

  /** `live` is capabilities.liveAssistant; `content` stands for the title, phase, git and so on. */
  datatype Announce = Announce(
    sentAt: real, incarnation: Option<string>, startedAt: Option<nat>, number: Option<nat>, live: bool, content: string)

  function ShouldAccept(existing: Option<Announce>, incoming: Announce): bool {
    if existing.None? then true
    else
      var a, b := existing.value, incoming;
      if a.incarnation.Some? && b.incarnation.Some? && a.incarnation == b.incarnation then
        if a.number.Some? && b.number.Some? then b.number.value > a.number.value else b.sentAt >= a.sentAt
      else if a.incarnation.Some? && b.incarnation.Some? then
        if a.startedAt.Some? && b.startedAt.Some? && a.startedAt != b.startedAt then
          b.startedAt.value > a.startedAt.value
        else if a.startedAt.Some? && b.startedAt == a.startedAt then
          Before(a.incarnation.value, b.incarnation.value)
        else b.sentAt > a.sentAt
      else if a.incarnation.None? then b.sentAt >= a.sentAt
      else b.sentAt > a.sentAt
  }

  /** `b` replaces `a`. */
  predicate Replaces(b: Announce, a: Announce) { ShouldAccept(Some(a), b) }

  /** A current host sends all three ordering fields, a legacy host none. */
  predicate Current(a: Announce) { a.incarnation.Some? && a.startedAt.Some? && a.number.Some? }

  predicate Legacy(a: Announce) { a.incarnation.None? }

  ghost predicate AllCurrent(s: set<Announce>) {
    && (forall a :: a in s ==> Current(a))
    && (forall a, b :: a in s && b in s && a.incarnation == b.incarnation ==> a.startedAt == b.startedAt)
  }

  ghost predicate AllLegacy(s: set<Announce>) { forall a :: a in s ==> Legacy(a) }

  /** Acceptance is a strict total order on `s`. */
  ghost predicate Linear(s: set<Announce>) {
    && (forall a, b :: a in s && b in s && a != b ==> Replaces(a, b) != Replaces(b, a))
    && (forall a, b, c :: a in s && b in s && c in s && a != b && b != c && a != c && Replaces(b, a) && Replaces(c, b)
          ==> Replaces(c, a))
  }

  // ---------------------------------------------------------------------------------------------
  // When acceptance is an order
  // ---------------------------------------------------------------------------------------------

  /** The coordinate of a current announce: start, incarnation, number, compared in this order. */
  predicate Later(b: Announce, a: Announce)
    requires Current(a) && Current(b)
  {
    || b.startedAt.value > a.startedAt.value
    || (b.startedAt == a.startedAt && Before(a.incarnation.value, b.incarnation.value))
    || (b.startedAt == a.startedAt && b.incarnation == a.incarnation && b.number.value > a.number.value)
  }

  lemma ReplacesIsLater(a: Announce, b: Announce)
    requires Current(a) && Current(b) && (a.incarnation == b.incarnation ==> a.startedAt == b.startedAt)
    ensures Replaces(b, a) <==> Later(b, a)
  {
    BeforeIsIrreflexive(a.incarnation.value);
  }

  lemma LaterIsTransitive(a: Announce, b: Announce, c: Announce)
    requires Current(a) && Current(b) && Current(c) && Later(b, a) && Later(c, b)
    ensures Later(c, a)
  {
    if Before(a.incarnation.value, b.incarnation.value) && Before(b.incarnation.value, c.incarnation.value) {
      BeforeIsTransitive(a.incarnation.value, b.incarnation.value, c.incarnation.value);
    }
  }

  /** Two announces of one incarnation with one number. */
  predicate SameCoordinate(a: Announce, b: Announce) { a.incarnation == b.incarnation && a.number == b.number }

  lemma LaterIsTotal(a: Announce, b: Announce)
    requires Current(a) && Current(b) && (a.incarnation == b.incarnation ==> a.startedAt == b.startedAt)
    ensures !(Later(a, b) && Later(b, a))
    ensures !Later(a, b) && !Later(b, a) <==> SameCoordinate(a, b)
  {
    BeforeIsTotal(a.incarnation.value, b.incarnation.value);
  }

  /**
   * For current announces whose incarnation fixes its start time, acceptance is a strict total order
   * exactly when no incarnation reuses a number for another announce.
   */
  lemma CurrentIsLinearIff(s: set<Announce>)
    requires AllCurrent(s)
    ensures Linear(s) <==> forall a, b :: a in s && b in s && a != b ==> !SameCoordinate(a, b)
  {
    forall a, b | a in s && b in s
      ensures Replaces(b, a) == Later(b, a)
      ensures !(Later(a, b) && Later(b, a)) && (!Later(a, b) && !Later(b, a) <==> SameCoordinate(a, b))
    {
      ReplacesIsLater(a, b);
      LaterIsTotal(a, b);
    }
    forall a, b, c | a in s && b in s && c in s && Replaces(b, a) && Replaces(c, b) ensures Replaces(c, a) {
      LaterIsTransitive(a, b, c);
    }
  }

  /** For legacy announces: exactly when no two share a timestamp. */
  lemma LegacyIsLinearIff(s: set<Announce>)
    requires AllLegacy(s)
    ensures Linear(s) <==> forall a, b :: a in s && b in s && a != b ==> a.sentAt != b.sentAt
  {
    forall a, b | a in s && b in s ensures Replaces(b, a) <==> b.sentAt >= a.sentAt {
    }
  }

  /** Mixed streams can cycle: each of these three replaces the one before it. */
  lemma MixedAnnouncesCycle(a: Announce, b: Announce, c: Announce)
    requires a == Announce(4.0, Some("x"), Some(1), Some(2), false, "second")
    requires b == Announce(5.0, None, None, None, false, "legacy")
    requires c == Announce(5.0, Some("x"), Some(1), Some(1), false, "first")
    ensures Replaces(b, a) && Replaces(c, b) && Replaces(a, c) && !Linear({a, b, c})
  {
    assert !Replaces(c, a);
  }

  // ---------------------------------------------------------------------------------------------
  // The fold over a stream
  // ---------------------------------------------------------------------------------------------

  function Latest(existing: Option<Announce>, stream: seq<Announce>): Option<Announce>
    decreases stream
  {
    if stream == [] then existing
    else Latest(if ShouldAccept(existing, stream[0]) then Some(stream[0]) else existing, stream[1..])
  }

  /** `m` is the announce of `s` that replaces every other. */
  ghost predicate Newest(m: Announce, s: set<Announce>) { m in s && forall a :: a in s && a != m ==> Replaces(m, a) }

  function Elements(stream: seq<Announce>): set<Announce> { set a | a in stream }

  lemma {:induction false} LatestIsNewest(existing: Announce, stream: seq<Announce>, s: set<Announce>)
    requires Linear(s) && existing in s && Elements(stream) <= s
    ensures Latest(Some(existing), stream).Some?
    ensures Newest(Latest(Some(existing), stream).value, Elements(stream) + {existing})
    decreases stream
  {
    if stream != [] {
      var head, rest := stream[0], stream[1..];
      assert head in Elements(stream) && Elements(rest) <= Elements(stream);
      assert Elements(stream) == Elements(rest) + {head};
      var next := if Replaces(head, existing) then head else existing;
      LatestIsNewest(next, rest, s);
      var m := Latest(Some(next), rest).value;
      forall a | a in Elements(stream) + {existing} && a != m ensures Replaces(m, a) {
        if a != next && m != next && a in {head, existing} {
          assert Replaces(m, next) && Replaces(next, a);
        }
      }
    }
  }

  /** The outcome of a stream depends on the set of its announces only. */
  lemma LinearConverges(s: set<Announce>, one: seq<Announce>, two: seq<Announce>)
    requires Linear(s) && Elements(one) == Elements(two) <= s
    ensures Latest(None, one) == Latest(None, two)
  {
    NoElementsIffEmpty(one);
    NoElementsIffEmpty(two);
    if one != [] {
      LatestOfStream(one, s);
      LatestOfStream(two, s);
      var m, n := Latest(None, one).value, Latest(None, two).value;
      assert m != n ==> Replaces(m, n) && Replaces(n, m);
    }
  }

  lemma NoElementsIffEmpty(stream: seq<Announce>)
    ensures Elements(stream) == {} <==> stream == []
  {
    if stream != [] {
      assert stream[0] in Elements(stream);
    }
  }

  lemma LatestOfStream(stream: seq<Announce>, s: set<Announce>)
    requires Linear(s) && Elements(stream) <= s && stream != []
    ensures Latest(None, stream).Some? && Newest(Latest(None, stream).value, Elements(stream))
  {
    assert stream[0] in Elements(stream) && Elements(stream[1..]) <= Elements(stream);
    assert Elements(stream[1..]) + {stream[0]} == Elements(stream);
    LatestIsNewest(stream[0], stream[1..], s);
  }

  /** Every two streams over the same announces of `s`, in any order and with any repetition, agree. */
  ghost predicate Converges(s: set<Announce>) {
    forall one, two :: Elements(one) == Elements(two) <= s ==> Latest(None, one) == Latest(None, two)
  }

  /** Delivery order and duplication never matter exactly when acceptance is a strict total order. */
  lemma ConvergesIffLinear(s: set<Announce>)
    ensures Converges(s) <==> Linear(s)
  {
    if Linear(s) {
      forall one, two | Elements(one) == Elements(two) <= s ensures Latest(None, one) == Latest(None, two) {
        LinearConverges(s, one, two);
      }
    }
    if Converges(s) {
      forall a, b | a in s && b in s && a != b ensures Replaces(a, b) != Replaces(b, a) {
        ConvergingPair(s, a, b);
      }
      forall a, b, c | a in s && b in s && c in s && a != b && b != c && a != c && Replaces(b, a) && Replaces(c, b)
        ensures Replaces(c, a)
      {
        ConvergingPair(s, a, c);
        ConvergingPair(s, a, b);
        if Replaces(a, c) {
          CycleDiverges(s, a, b, c);
        }
      }
    }
  }

  lemma ConvergingPair(s: set<Announce>, a: Announce, b: Announce)
    requires Converges(s) && a in s && b in s && a != b
    ensures Replaces(a, b) != Replaces(b, a)
  {
    assert Elements([a, b]) == Elements([b, a]) == {a, b};
    assert [a, b][1..] == [b] && [b, a][1..] == [a] && [a][1..] == [] && [b][1..] == [];
    assert Latest(None, [a, b]) == Latest(None, [b, a]);
    assert Latest(None, [a, b]) == Latest(Some(a), [b]) == if Replaces(b, a) then Some(b) else Some(a);
    assert Latest(None, [b, a]) == Latest(Some(b), [a]) == if Replaces(a, b) then Some(a) else Some(b);
  }

  lemma CycleDiverges(s: set<Announce>, a: Announce, b: Announce, c: Announce)
    requires a in s && b in s && c in s && a != c
    requires Replaces(b, a) && Replaces(c, b) && Replaces(a, c)
    ensures !Converges(s)
  {
    assert Elements([a, b, c]) == Elements([b, c, a]) == {a, b, c};
    LatestOfThree(a, b, c);
    LatestOfThree(b, c, a);
    assert Latest(None, [a, b, c]) != Latest(None, [b, c, a]);
  }

  lemma LatestOfThree(a: Announce, b: Announce, c: Announce)
    requires Replaces(b, a) && Replaces(c, b)
    ensures Latest(None, [a, b, c]) == Some(c)
  {
    assert [a, b, c][1..] == [b, c] && [b, c][1..] == [c] && [c][1..] == [];
    assert Latest(None, [a, b, c]) == Latest(Some(a), [b, c]) == Latest(Some(b), [c]) == Latest(Some(c), []);
  }

  // ---------------------------------------------------------------------------------------------
  // Freshness
  // ---------------------------------------------------------------------------------------------

  /** An accepted announce with its bounded liveness observation. */
  datatype Row = Row(announce: Announce, freshnessAt: real)

  /** The incoming announce is the liveness observation the accepted one already made. */
  predicate SameObservation(a: Announce, incoming: Announce) {
    && a.incarnation == incoming.incarnation
    && (if a.incarnation.None? then a.sentAt == incoming.sentAt
        else if a.number.Some? && incoming.number.Some? then a.number == incoming.number
        else a.sentAt == incoming.sentAt)
  }

  function FreshnessAt(existing: Option<Row>, incoming: Announce, receivedAt: real): real {
    if existing.Some? && SameObservation(existing.value.announce, incoming) then existing.value.freshnessAt
    else if incoming.sentAt > receivedAt + ANNOUNCE_FUTURE_SKEW_MS then receivedAt - CONNECTED_WINDOW_MS
    else if incoming.sentAt < receivedAt then incoming.sentAt
    else receivedAt
  }

  function AnnounceOf(row: Option<Row>): Option<Announce> { if row.Some? then Some(row.value.announce) else None }

  /** What one received announce does to the row of its session. */
  function Receive(row: Option<Row>, incoming: Announce, receivedAt: real): Option<Row> {
    if ShouldAccept(AnnounceOf(row), incoming) then Some(Row(incoming, FreshnessAt(row, incoming, receivedAt))) else row
  }

  datatype Receipt = Receipt(announce: Announce, at: real)

  function ReceiveAll(row: Option<Row>, receipts: seq<Receipt>): Option<Row>
    decreases receipts
  {
    if receipts == [] then row else ReceiveAll(Receive(row, receipts[0].announce, receipts[0].at), receipts[1..])
  }

  predicate ClockMovesForward(receipts: seq<Receipt>) {
    forall i, j :: 0 <= i < j < |receipts| ==> receipts[i].at <= receipts[j].at
  }

  /** No announce, current, legacy or mixed, makes a row fresher than the viewer's own clock. */
  lemma {:induction false} FreshnessNeverExceedsReceipt(row: Option<Row>, receipts: seq<Receipt>)
    requires receipts != [] && ClockMovesForward(receipts)
    requires row.Some? ==> row.value.freshnessAt <= receipts[0].at
    ensures ReceiveAll(row, receipts).Some? && ReceiveAll(row, receipts).value.freshnessAt <= receipts[|receipts| - 1].at
    decreases receipts
  {
    var next := Receive(row, receipts[0].announce, receipts[0].at);
    if |receipts| > 1 {
      assert next.value.freshnessAt <= receipts[1].at;
      FreshnessNeverExceedsReceipt(next, receipts[1..]);
    } else {
      assert receipts[1..] == [];
    }
  }

  /** A row of announce `r` already accounts for `a`: receiving it again changes no freshness. */
  predicate Held(r: Announce, a: Announce) { !Replaces(a, r) || SameObservation(r, a) }

  /** Whatever replaces a row that accounts for an announce accounts for it too. */
  ghost predicate HeldIsKept(s: set<Announce>) {
    forall a, r, i :: a in s && r in s && i in s && Held(r, a) && Replaces(i, r) ==> Held(i, a)
  }

  function Announced(receipts: seq<Receipt>): set<Announce> { set r | r in receipts :: r.announce }

  lemma {:induction false} RunHolds(row: Option<Row>, receipts: seq<Receipt>, a: Announce, s: set<Announce>)
    requires HeldIsKept(s) && Announced(receipts) <= s && (row.Some? ==> row.value.announce in s)
    requires a in s && (a in Announced(receipts) || (row.Some? && Held(row.value.announce, a)))
    ensures ReceiveAll(row, receipts).Some? && Held(ReceiveAll(row, receipts).value.announce, a)
    decreases receipts
  {
    if receipts != [] {
      var r, rest := receipts[0], receipts[1..];
      assert r in receipts && r.announce in Announced(receipts);
      assert forall x :: x in rest ==> x in receipts;
      assert Announced(rest) <= Announced(receipts);
      if r.announce != a && !(row.Some? && Held(row.value.announce, a)) {
        var x :| x in receipts && x.announce == a;
        assert x in rest;
      }
      RunHolds(Receive(row, r.announce, r.at), rest, a, s);
    }
  }

  /**
   * When replacing keeps what is accounted for, a replay of any announce already received, whenever it
   * comes and however the clock moves, leaves the freshness of the row as it is.
   */
  lemma HeldReplayChangesNothing(receipts: seq<Receipt>, a: Announce, at: real)
    requires HeldIsKept(Announced(receipts)) && a in Announced(receipts)
    ensures var row := ReceiveAll(None, receipts);
            row.Some? && Receive(row, a, at).Some? && Receive(row, a, at).value.freshnessAt == row.value.freshnessAt
  {
    RunHolds(None, receipts, a, Announced(receipts));
  }

  /** A replay after these receipts, on a clock that moves forward, makes the row fresher. */
  ghost predicate Freshens(receipts: seq<Receipt>, a: Announce, at: real) {
    && receipts != [] && ClockMovesForward(receipts) && receipts[|receipts| - 1].at <= at
    && a in Announced(receipts)
    && (var row := ReceiveAll(None, receipts);
        row.Some? && Receive(row, a, at).Some? && Receive(row, a, at).value.freshnessAt > row.value.freshnessAt)
  }

  ghost predicate ReplaysHarmless(s: set<Announce>) {
    forall receipts, a, at :: Announced(receipts) <= s ==> !Freshens(receipts, a, at)
  }

  function ReceiptsAt(stream: seq<Announce>, at: real): seq<Receipt> {
    seq(|stream|, i requires 0 <= i < |stream| => Receipt(stream[i], at))
  }

  lemma {:induction false} RowIsLatest(row: Option<Row>, stream: seq<Announce>, at: real)
    ensures AnnounceOf(ReceiveAll(row, ReceiptsAt(stream, at))) == Latest(AnnounceOf(row), stream)
    decreases stream
  {
    if stream != [] {
      assert ReceiptsAt(stream, at)[1..] == ReceiptsAt(stream[1..], at);
      RowIsLatest(Receive(row, stream[0], at), stream[1..], at);
    }
  }

  /** The row of `i` does not account for `a` received before it: its replay, as soon as it was sent, freshens. */
  lemma UnheldReplayFreshens(x: Announce, y: Announce, i: Announce, a: Announce)
    requires a in {x, y} && Latest(None, [x, y, i]) == Some(i) && !Held(i, a)
    ensures exists receipts, at :: Announced(receipts) == {x, y, i} && Freshens(receipts, a, at)
  {
    var t := a.sentAt - 1.0;
    var receipts := ReceiptsAt([x, y, i], t);
    RowIsLatest(None, [x, y, i], t);
    FreshnessNeverExceedsReceipt(None, receipts);
    assert Announced(receipts) == {x, y, i} by {
      assert receipts[0] in receipts && receipts[1] in receipts && receipts[2] in receipts;
    }
    assert Freshens(receipts, a, a.sentAt);
  }

  lemma LatestOfTwoKept(r: Announce, a: Announce, i: Announce)
    requires Held(r, a) && Replaces(i, r)
    ensures Latest(None, if Replaces(a, r) then [a, r, i] else [r, a, i]) == Some(i)
  {
    if Replaces(a, r) {
      assert Replaces(r, a);
      LatestOfThree(a, r, i);
    } else {
      assert [r, a, i][1..] == [a, i] && [a, i][1..] == [i] && [i][1..] == [];
      assert Latest(None, [r, a, i]) == Latest(Some(r), [a, i]) == Latest(Some(r), [i]) == Latest(Some(i), []);
    }
  }

  /**
   * Exactly when replays are harmless over every stream of announces from `s`: a row that accounts for
   * an announce is replaced only by one that does.
   */
  lemma ReplaysHarmlessIff(s: set<Announce>)
    ensures ReplaysHarmless(s) <==> HeldIsKept(s)
  {
    if HeldIsKept(s) {
      forall receipts, a, at | Announced(receipts) <= s && Freshens(receipts, a, at) ensures false {
        HeldReplayChangesNothing(receipts, a, at);
      }
    }
    if ReplaysHarmless(s) {
      forall a, r, i | a in s && r in s && i in s && Held(r, a) && Replaces(i, r) ensures Held(i, a) {
        LatestOfTwoKept(r, a, i);
        if !Held(i, a) {
          UnheldReplayFreshens(if Replaces(a, r) then a else r, if Replaces(a, r) then r else a, i, a);
        }
      }
    }
  }

  /** All current with fixed starts, or all legacy. */
  ghost predicate Homogeneous(s: set<Announce>) { AllCurrent(s) || AllLegacy(s) }

  lemma HomogeneousHolds(s: set<Announce>)
    requires Homogeneous(s)
    ensures HeldIsKept(s)
  {
    if AllCurrent(s) {
      forall a, r, i | a in s && r in s && i in s && Held(r, a) && Replaces(i, r) && Replaces(a, i) ensures false {
        ReplacesIsLater(r, i);
        ReplacesIsLater(i, a);
        LaterIsTransitive(r, i, a);
        ReplacesIsLater(r, a);
      }
    }
  }

  /**
   * In a homogeneous stream a replay of any announce already received, however much later, never makes
   * the row fresher; a replayed keepalive therefore cannot hold a dead host alive.
   */
  lemma ReplayNeverFreshens(receipts: seq<Receipt>, a: Announce, at: real)
    requires Homogeneous(Announced(receipts)) && a in Announced(receipts)
    ensures var row := ReceiveAll(None, receipts);
            row.Some? && Receive(row, a, at).Some? && Receive(row, a, at).value.freshnessAt == row.value.freshnessAt
  {
    HomogeneousHolds(Announced(receipts));
    HeldReplayChangesNothing(receipts, a, at);
  }

  /** A mixed set need not be harmless: in the cycle, a replay of the first announce freshens the row. */
  lemma MixedReplayFreshens(a: Announce, b: Announce, c: Announce)
    requires a == Announce(4.0, Some("x"), Some(1), Some(2), false, "second")
    requires b == Announce(5.0, None, None, None, false, "legacy")
    requires c == Announce(5.0, Some("x"), Some(1), Some(1), false, "first")
    ensures !ReplaysHarmless({a, b, c})
  {
    assert Held(b, a) && Replaces(c, b) && !Held(c, a);
    ReplaysHarmlessIff({a, b, c});
  }

  /** And need not be harmful: no replay of either of these two freshens anything. */
  lemma MixedReplayCanBeHarmless(a: Announce, b: Announce)
    requires a == Announce(4.0, Some("x"), Some(1), Some(2), false, "current")
    requires b == Announce(5.0, None, None, None, false, "legacy")
    ensures !Homogeneous({a, b}) && ReplaysHarmless({a, b})
  {
    assert a in {a, b} && b in {a, b};
    ReplaysHarmlessIff({a, b});
  }

  // ---------------------------------------------------------------------------------------------
  // The connection ladder
  // ---------------------------------------------------------------------------------------------

  datatype ConnState = Connected | Reconnecting | Disconnected

  function ConnStateOf(freshnessAt: real, now: real, reconnectingSince: real): ConnState {
    if now - freshnessAt < CONNECTED_WINDOW_MS then Connected
    else
      var anchor := if reconnectingSince > 0.0 then reconnectingSince else freshnessAt + CONNECTED_WINDOW_MS;
      if now - anchor < RECONNECTING_WINDOW_MS then Reconnecting else Disconnected
  }

  function NextReconnectAnchor(prev: Option<real>, stale: bool, now: real): Option<real> {
    if !stale then None else if prev.Some? then prev else Some(now)
  }

  /** One evaluation of the row: the console's clock and the row's freshness at that moment. */
  datatype Render = Render(now: real, freshnessAt: real)

  predicate Stale(r: Render) { r.now - r.freshnessAt >= CONNECTED_WINDOW_MS }

  /** The anchor kept across evaluations. */
  function Anchor(renders: seq<Render>): Option<real> {
    if renders == [] then None
    else
      var n := |renders| - 1;
      NextReconnectAnchor(Anchor(renders[..n]), Stale(renders[n]), renders[n].now)
  }

  function Shown(renders: seq<Render>): ConnState
    requires renders != []
  {
    var last := renders[|renders| - 1];
    ConnStateOf(last.freshnessAt, last.now, if Anchor(renders).Some? then Anchor(renders).value else 0.0)
  }

  /** The last evaluations from `j` on read stale, and the one before `j` did not. */
  predicate StaleSince(renders: seq<Render>, j: nat) {
    && j < |renders|
    && (forall i :: j <= i < |renders| ==> Stale(renders[i]))
    && (j > 0 ==> !Stale(renders[j - 1]))
  }

  lemma {:induction false} AnchorIsFirstStale(renders: seq<Render>, j: nat)
    requires StaleSince(renders, j)
    ensures Anchor(renders) == Some(renders[j].now)
  {
    var n := |renders| - 1;
    var before := renders[..n];
    if j < n {
      AnchorIsFirstStale(before, j);
    } else if n > 0 {
      assert before[n - 1] == renders[j - 1];
    }
  }

  /**
   * However often the row is evaluated (every focus or tick is one evaluation), it shows a full
   * reconnecting window from the first stale evaluation, then stays disconnected until it is fresh.
   */
  lemma LadderFollowsFirstStale(renders: seq<Render>, j: nat)
    requires StaleSince(renders, j) && renders[j].now > 0.0
    ensures Shown(renders) ==
            if renders[|renders| - 1].now - renders[j].now < RECONNECTING_WINDOW_MS then Reconnecting else Disconnected
  {
    AnchorIsFirstStale(renders, j);
  }

  /** A row is never shown disconnected right after it was shown connected, whatever the gap between. */
  lemma ConnectedNeverSnapsToDisconnected(renders: seq<Render>, next: Render)
    requires renders != [] && Shown(renders) == Connected && next.now > 0.0
    ensures Shown(renders + [next]) != Disconnected
  {
    var all := renders + [next];
    assert all[..|renders|] == renders;
    if Stale(next) {
      assert StaleSince(all, |renders|);
      LadderFollowsFirstStale(all, |renders|);
    }
  }

  /** A first announce shows its row connected on receipt exactly within these bounds of the host's clock. */
  lemma ConnectedOnReceiptIff(a: Announce, receivedAt: real)
    ensures ConnStateOf(Receive(None, a, receivedAt).value.freshnessAt, receivedAt, 0.0) == Connected
            <==> receivedAt - CONNECTED_WINDOW_MS < a.sentAt <= receivedAt + ANNOUNCE_FUTURE_SKEW_MS
  {
  }
}
