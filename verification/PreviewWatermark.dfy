/**
 * Whether the preview shown for a session can go back: the watermark that `readLiveOutput` keeps against
 * the accepted announces (apps/web/app/lib/viewer.ts).
 */
module PreviewWatermark {
  import opened Common
  import opened Announces
  import opened LivePreview
  import opened Presence

  /** The coordinates shown for one session over a run of events, in order. */
  function ShownIn(b: Book, events: seq<Event>, session: string): seq<Coordinate>
    decreases events
  {
    if events == [] then [] else ShownBy(b, events[0], session) + ShownIn(Handle(b, events[0]), events[1..], session)
  }

  function ShownBy(b: Book, e: Event, session: string): seq<Coordinate> {
    if e.PreviewRead? && e.session == session && Displayed(b, e).Some? then [Displayed(b, e).value.at] else []
  }

  predicate Ascends(shown: seq<Coordinate>) {
    forall i, j :: 0 <= i < j < |shown| ==> !Less(shown[j], shown[i])
  }

  /** Over every run whose announces of the session are from `s`, the shown preview never goes back. */
  ghost predicate NeverRewinds(s: set<Announce>, session: string) {
    forall events :: Elements(StreamOf(events, session)) <= s ==> Ascends(ShownIn(NOTHING, events, session))
  }

  /** A preview of the announced incarnation may be shown. */
  predicate Previewable(a: Announce) { a.live && a.incarnation.Some? && a.startedAt.Some? }

  /** The announced incarnation, as the least coordinate of its previews. */
  function KeyOf(a: Announce): Coordinate
    requires Previewable(a)
  {
    Coordinate(a.startedAt.value, a.incarnation.value, 0)
  }

  function KeyAt(at: Coordinate): Coordinate { at.(revision := 0) }

  /** Announces of `s`, each replacing the one before. */
  ghost predicate Chain(c: seq<Announce>, s: set<Announce>) {
    && c != [] && Elements(c) <= s
    && forall i :: 0 <= i < |c| - 1 ==> Replaces(c[i + 1], c[i])
  }

  /** Replacement leads from an incarnation whose previews may be shown to an earlier such one. */
  ghost predicate Rewindable(s: set<Announce>) {
    exists c :: Chain(c, s) && Previewable(c[0]) && Previewable(c[|c| - 1]) && Less(KeyOf(c[|c| - 1]), KeyOf(c[0]))
  }

  lemma NotLessIsTransitive(a: Coordinate, b: Coordinate, c: Coordinate)
    requires !Less(b, a) && !Less(c, b)
    ensures !Less(c, a)
  {
    ComparatorIsTotal(a, b);
    ComparatorIsTotal(b, c);
    ComparatorIsTotal(a, c);
    if Less(a, b) && Less(b, c) {
      ComparatorIsTransitive(a, b, c);
    }
  }

  lemma KeysDecide(a: Coordinate, b: Coordinate)
    requires KeyAt(a) != KeyAt(b)
    ensures Less(a, b) <==> Less(KeyAt(a), KeyAt(b))
    ensures Less(a, b) || Less(b, a)
  {
    ComparatorIsTotal(a, b);
  }

  // ---------------------------------------------------------------------------------------------
  // Without such a chain nothing goes back
  // ---------------------------------------------------------------------------------------------

  /** Replacement led from the watermark's incarnation to the accepted announce. */
  ghost predicate LeadsFrom(at: Coordinate, a: Announce, s: set<Announce>) {
    exists c :: Chain(c, s) && Previewable(c[0]) && KeyOf(c[0]) == KeyAt(at) && c[|c| - 1] == a
  }

  ghost predicate Tracked(b: Book, session: string, s: set<Announce>) {
    && Sound(b)
    && (session in b.accepted ==> b.accepted[session].announce in s)
    && (session in b.live ==> LeadsFrom(b.live[session].at, b.accepted[session].announce, s))
  }

  lemma LeadsOn(at: Coordinate, a: Announce, next: Announce, s: set<Announce>)
    requires LeadsFrom(at, a, s) && next in s && Replaces(next, a)
    ensures LeadsFrom(at, next, s)
  {
    var c :| Chain(c, s) && Previewable(c[0]) && KeyOf(c[0]) == KeyAt(at) && c[|c| - 1] == a;
    var d := c + [next];
    assert Chain(d, s) && d[0] == c[0] && d[|d| - 1] == next;
  }

  lemma LeadsToItself(a: Announce, at: Coordinate, s: set<Announce>)
    requires a in s && Previewable(a) && KeyOf(a) == KeyAt(at)
    ensures LeadsFrom(at, a, s)
  {
    assert Chain([a], s) && [a][0] == a;
  }

  /** What a read stores belongs to the accepted incarnation and is not behind the watermark. */
  lemma ReadKeepsTracked(b: Book, session: string, incoming: LiveOutput, now: real, s: set<Announce>)
    requires !Rewindable(s) && Tracked(b, session, s) && Eligible(b, session, incoming, now)
    ensures LeadsFrom(NewerOf(b, session, incoming).at, b.accepted[session].announce, s)
    ensures session in b.live ==> !Less(NewerOf(b, session, incoming).at, b.live[session].at)
  {
    var a := b.accepted[session].announce;
    LeadsToItself(a, incoming.at, s);
    if session in b.live {
      ComparatorIsTotal(b.live[session].at, b.live[session].at);
      if KeyAt(incoming.at) == KeyAt(b.live[session].at) {
        ComparatorIsTotal(incoming.at, b.live[session].at);
      } else {
        assert !Less(KeyOf(a), KeyAt(b.live[session].at));
        KeysDecide(incoming.at, b.live[session].at);
      }
    }
  }

  lemma HandleKeepsTracked(b: Book, e: Event, session: string, s: set<Announce>)
    requires !Rewindable(s) && Tracked(b, session, s)
    requires e.Announced? && e.session == session ==> e.announce in s
    ensures Tracked(Handle(b, e), session, s)
    ensures session in b.live && session in Handle(b, e).live ==> !Less(Handle(b, e).live[session].at, b.live[session].at)
  {
    HandleKeepsSound(b, e);
    if session in b.live {
      ComparatorIsTotal(b.live[session].at, b.live[session].at);
    }
    if e.Announced? && e.session == session && session in b.live && Replaces(e.announce, b.accepted[session].announce) {
      LeadsOn(b.live[session].at, b.accepted[session].announce, e.announce, s);
    }
    if e.PreviewRead? && e.session == session && e.incoming.Some? && Eligible(b, session, e.incoming.value, e.now) {
      ReadKeepsTracked(b, session, e.incoming.value, e.now, s);
    }
  }

  /** What a read shows is the watermark it leaves. */
  lemma ShownIsWatermark(b: Book, e: Event, session: string)
    requires ShownBy(b, e, session) != []
    ensures session in Handle(b, e).live && ShownBy(b, e, session) == [Handle(b, e).live[session].at]
  {
  }

  /** Everything shown from here on is at or above the watermark. */
  lemma {:induction false} ShownAboveWatermark(b: Book, events: seq<Event>, session: string, s: set<Announce>, k: nat)
    requires !Rewindable(s) && Tracked(b, session, s) && Elements(StreamOf(events, session)) <= s
    requires session in b.live && k < |ShownIn(b, events, session)|
    ensures !Less(ShownIn(b, events, session)[k], b.live[session].at)
    decreases events
  {
    var e, rest := events[0], events[1..];
    FirstOfStream(events, session);
    HandleKeepsTracked(b, e, session, s);
    var b', n := Handle(b, e), |ShownBy(b, e, session)|;
    if session !in b'.live {
      TombstoneShowsNothing(b', rest, session);
    } else if k >= n {
      ShownAboveWatermark(b', rest, session, s, k - n);
      NotLessIsTransitive(b.live[session].at, b'.live[session].at, ShownIn(b', rest, session)[k - n]);
    } else {
      ShownIsWatermark(b, e, session);
    }
  }

  lemma FirstOfStream(events: seq<Event>, session: string)
    requires events != []
    ensures Elements(StreamOf(events[1..], session)) <= Elements(StreamOf(events, session))
    ensures events[0].Announced? && events[0].session == session ==> events[0].announce in Elements(StreamOf(events, session))
  {
  }

  lemma {:induction false} TombstoneShowsNothing(b: Book, events: seq<Event>, session: string)
    requires Sound(b) && session in b.terminals
    ensures ShownIn(b, events, session) == []
    decreases events
  {
    if events != [] {
      HandleKeepsSound(b, events[0]);
      TombstoneShowsNothing(Handle(b, events[0]), events[1..], session);
    }
  }

  lemma AscendsCons(x: Coordinate, later: seq<Coordinate>)
    requires Ascends(later) && forall k :: 0 <= k < |later| ==> !Less(later[k], x)
    ensures Ascends([x] + later)
  {
    var all := [x] + later;
    forall i, j | 0 <= i < j < |all| ensures !Less(all[j], all[i]) {
      assert all[j] == later[j - 1] && (i > 0 ==> all[i] == later[i - 1]);
    }
  }

  lemma {:induction false} ShownAscends(b: Book, events: seq<Event>, session: string, s: set<Announce>)
    requires !Rewindable(s) && Tracked(b, session, s) && Elements(StreamOf(events, session)) <= s
    ensures Ascends(ShownIn(b, events, session))
    decreases events
  {
    if events != [] {
      var b', rest := Handle(b, events[0]), events[1..];
      FirstOfStream(events, session);
      HandleKeepsTracked(b, events[0], session, s);
      ShownAscends(b', rest, session, s);
      if ShownBy(b, events[0], session) == [] {
        assert [] + ShownIn(b', rest, session) == ShownIn(b', rest, session);
      } else {
        ShownIsWatermark(b, events[0], session);
        forall k | 0 <= k < |ShownIn(b', rest, session)|
          ensures !Less(ShownIn(b', rest, session)[k], b'.live[session].at)
        {
          ShownAboveWatermark(b', rest, session, s, k);
        }
        AscendsCons(b'.live[session].at, ShownIn(b', rest, session));
      }
    }
  }

  // ---------------------------------------------------------------------------------------------
  // With such a chain something does
  // ---------------------------------------------------------------------------------------------

  function AnnounceAll(session: string, c: seq<Announce>): seq<Event> {
    seq(|c|, i requires 0 <= i < |c| => Announced(session, session, c[i], 0.0))
  }

  function ReadOf(session: string, a: Announce): Event
    requires Previewable(a)
  {
    PreviewRead(session, false, Some(LiveOutput(KeyOf(a), 0.0, "")), 0.0)
  }

  /** A chain after its first announce: the row follows it, and no preview is touched. */
  lemma {:induction false} ChainIsAccepted(b: Book, session: string, c: seq<Announce>, s: set<Announce>)
    requires Chain(c, s) && session !in b.terminals && AnnounceOf(RowOf(b, session)) == Some(c[0])
    ensures var b' := HandleAll(b, AnnounceAll(session, c[1..]));
            && b'.terminals == b.terminals && b'.live == b.live
            && AnnounceOf(RowOf(b', session)) == Some(c[|c| - 1])
    ensures ShownIn(b, AnnounceAll(session, c[1..]), session) == []
    decreases |c|
  {
    if |c| > 1 {
      var events := AnnounceAll(session, c[1..]);
      assert events[0] == Announced(session, session, c[1], 0.0);
      assert events[1..] == AnnounceAll(session, c[1..][1..]);
      var rest := c[1..];
      assert Replaces(c[0 + 1], c[0]);
      forall i | 0 <= i < |rest| - 1 ensures Replaces(rest[i + 1], rest[i]) {
        assert Replaces(c[i + 1 + 1], c[i + 1]);
      }
      assert Chain(rest, s);
      ChainIsAccepted(Handle(b, events[0]), session, rest, s);
    }
  }

  lemma ReadShows(b: Book, session: string, a: Announce)
    requires session !in b.terminals && AnnounceOf(RowOf(b, session)) == Some(a) && Previewable(a)
    requires session in b.live ==> KeyAt(b.live[session].at) != KeyOf(a)
    ensures ShownBy(b, ReadOf(session, a), session) == [KeyOf(a)]
    ensures Handle(b, ReadOf(session, a)) == b.(live := b.live[session := LiveOutput(KeyOf(a), 0.0, "")])
  {
  }

  lemma {:induction false} ShownAppend(b: Book, x: seq<Event>, y: seq<Event>, session: string)
    ensures ShownIn(b, x + y, session) == ShownIn(b, x, session) + ShownIn(HandleAll(b, x), y, session)
    ensures HandleAll(b, x + y) == HandleAll(HandleAll(b, x), y)
    decreases x
  {
    if x == [] {
      assert x + y == y;
    } else {
      assert (x + y)[0] == x[0] && (x + y)[1..] == x[1..] + y;
      ShownAppend(Handle(b, x[0]), x[1..], y, session);
      AppendAssociates(ShownBy(b, x[0], session), ShownIn(Handle(b, x[0]), x[1..], session),
                       ShownIn(HandleAll(b, x), y, session));
    }
  }

  lemma OneEvent(b: Book, e: Event, session: string)
    ensures HandleAll(b, [e]) == Handle(b, e) && ShownIn(b, [e], session) == ShownBy(b, e, session)
  {
    assert [e][1..] == [];
  }

  /** Announce, read, announce the chain, read. */
  function RewindingRun(session: string, c: seq<Announce>): seq<Event>
    requires c != [] && Previewable(c[0]) && Previewable(c[|c| - 1])
  {
    [Announced(session, session, c[0], 0.0)] + [ReadOf(session, c[0])]
    + AnnounceAll(session, c[1..]) + [ReadOf(session, c[|c| - 1])]
  }

  lemma RewindingRunShows(session: string, c: seq<Announce>, s: set<Announce>)
    requires Chain(c, s) && Previewable(c[0]) && Previewable(c[|c| - 1]) && KeyOf(c[|c| - 1]) != KeyOf(c[0])
    ensures ShownIn(NOTHING, RewindingRun(session, c), session) == [KeyOf(c[0]), KeyOf(c[|c| - 1])]
  {
    var first, read, last := Announced(session, session, c[0], 0.0), ReadOf(session, c[0]), ReadOf(session, c[|c| - 1]);
    var chain := AnnounceAll(session, c[1..]);
    var b1 := Handle(NOTHING, first);
    var b2 := Handle(b1, read);
    OneEvent(NOTHING, first, session);
    ShownAppend(NOTHING, [first], [read], session);
    OneEvent(b1, read, session);
    ReadShows(b1, session, c[0]);
    ShownAppend(NOTHING, [first] + [read], chain, session);
    ChainIsAccepted(b2, session, c, s);
    ShownAppend(NOTHING, [first] + [read] + chain, [last], session);
    OneEvent(HandleAll(b2, chain), last, session);
    ReadShows(HandleAll(b2, chain), session, c[|c| - 1]);
  }

  lemma RewindingRunStaysIn(session: string, c: seq<Announce>, s: set<Announce>)
    requires Chain(c, s) && Previewable(c[0]) && Previewable(c[|c| - 1])
    ensures Elements(StreamOf(RewindingRun(session, c), session)) <= s
  {
    var events := RewindingRun(session, c);
    StreamElements(events, session);
    forall e | e in events && e.Announced? ensures e.announce in c {
      assert e in AnnounceAll(session, c[1..]) ==> e.announce in c[1..];
    }
  }

  /**
   * Exactly when a preview once shown is never followed by an earlier one, over every run of announces
   * from `s`, terminals and reads of whatever the broker returns: replacement leads from no incarnation
   * whose previews may be shown to an earlier such one.
   */
  lemma NeverRewindsIff(s: set<Announce>, session: string)
    ensures NeverRewinds(s, session) <==> !Rewindable(s)
  {
    if c :| Chain(c, s) && Previewable(c[0]) && Previewable(c[|c| - 1]) && Less(KeyOf(c[|c| - 1]), KeyOf(c[0])) {
      var shown := ShownIn(NOTHING, RewindingRun(session, c), session);
      ComparatorIsTotal(KeyOf(c[0]), KeyOf(c[0]));
      RewindingRunShows(session, c, s);
      RewindingRunStaysIn(session, c, s);
      assert Less(shown[1], shown[0]);
      assert !Ascends(shown);
    } else {
      forall events | Elements(StreamOf(events, session)) <= s ensures Ascends(ShownIn(NOTHING, events, session)) {
        ShownAscends(NOTHING, events, session, s);
      }
    }
  }

  // ---------------------------------------------------------------------------------------------
  // Current announces
  // ---------------------------------------------------------------------------------------------

  function CurrentKey(a: Announce): Coordinate
    requires Current(a)
  {
    Coordinate(a.startedAt.value, a.incarnation.value, 0)
  }

  lemma ReplacingKeepsKey(a: Announce, b: Announce)
    requires Current(a) && Current(b) && (a.incarnation == b.incarnation ==> a.startedAt == b.startedAt)
    requires Replaces(b, a)
    ensures !Less(CurrentKey(b), CurrentKey(a))
  {
    ReplacesIsLater(a, b);
    ComparatorIsTotal(CurrentKey(a), CurrentKey(b));
  }

  lemma {:induction false} CurrentChainAscends(c: seq<Announce>, s: set<Announce>)
    requires AllCurrent(s) && Chain(c, s)
    ensures c[0] in s && c[|c| - 1] in s && !Less(CurrentKey(c[|c| - 1]), CurrentKey(c[0]))
    decreases |c|
  {
    var n := |c| - 1;
    assert c[0] in Elements(c) && c[n] in Elements(c);
    if n == 0 {
      ComparatorIsTotal(CurrentKey(c[0]), CurrentKey(c[0]));
    } else {
      var init := c[..n];
      assert Elements(init) <= Elements(c);
      assert Chain(init, s);
      CurrentChainAscends(init, s);
      assert Replaces(c[n - 1 + 1], c[n - 1]);
      ReplacingKeepsKey(c[n - 1], c[n]);
      NotLessIsTransitive(CurrentKey(c[0]), CurrentKey(c[n - 1]), CurrentKey(c[n]));
    }
  }

  /**
   * With current announces whose incarnation fixes its start, the shown preview of a session never goes
   * back, neither within an incarnation nor to an earlier one.
   */
  lemma CurrentPreviewNeverGoesBack(s: set<Announce>, session: string)
    requires AllCurrent(s)
    ensures NeverRewinds(s, session)
  {
    if c :| Chain(c, s) && Previewable(c[0]) && Previewable(c[|c| - 1]) && Less(KeyOf(c[|c| - 1]), KeyOf(c[0])) {
      CurrentChainAscends(c, s);
      assert false;
    }
    NeverRewindsIff(s, session);
  }

  /** With a legacy announce in between it can: the preview of an earlier relay is shown after a later one's. */
  lemma MixedAnnouncesRewindPreview(later: Announce, legacy: Announce, earlier: Announce, session: string)
    requires Previewable(later) && Previewable(earlier) && Legacy(legacy)
    requires later.sentAt < legacy.sentAt <= earlier.sentAt && Less(KeyOf(earlier), KeyOf(later))
    ensures !NeverRewinds({later, legacy, earlier}, session)
  {
    var c := [later, legacy, earlier];
    assert Chain(c, {later, legacy, earlier});
    NeverRewindsIff({later, legacy, earlier}, session);
  }
}
