/**
 * The viewer's presence state: accepted announces, tombstones and preview watermarks, as `announces` and
 * `readLiveOutput` update them (apps/web/app/lib/viewer.ts). Frames are already authenticated here.
 */
module Presence {
  import opened Common
  import opened Announces
  import opened LivePreview

  const PREVIEW_TTL_MS := LIVE_OUTPUT_TTL_MS as real

  /** A decrypted preview. */
  datatype LiveOutput = LiveOutput(at: Coordinate, sentAt: real, item: string)

  datatype Book = Book(accepted: map<string, Row>, terminals: set<string>, live: map<string, LiveOutput>)

  const NOTHING := Book(map[], {}, map[])

  /**
   * One settled event. `routed` is the session of the frame's header, `session` the one in its payload;
   * a preview read is taken after its awaits, when the state is read again.
   */
  datatype Event =
    | Terminal(session: string)
    | Announced(routed: string, session: string, announce: Announce, at: real)
    | PreviewRead(session: string, aborted: bool, incoming: Option<LiveOutput>, now: real)

  function RowOf(b: Book, session: string): Option<Row> {
    if session in b.accepted then Some(b.accepted[session]) else None
  }

  function OnTerminalSpec(b: Book, session: string): Book {
    if session == "" || session in b.terminals then b
    else Book(b.accepted - {session}, b.terminals + {session}, b.live - {session})
  }

  function OnAnnounceSpec(b: Book, routed: string, session: string, announce: Announce, at: real): Book {
    if routed in b.terminals || session in b.terminals then b
    else
      var row := Receive(RowOf(b, session), announce, at);
      if row.Some? then b.(accepted := b.accepted[session := row.value]) else b
  }

  /** The preview is the accepted incarnation's, and the accepted host supports previews. */
  predicate Eligible(b: Book, session: string, incoming: LiveOutput, now: real) {
    && session !in b.terminals && session in b.accepted
    && (var a := b.accepted[session].announce;
        a.live && a.incarnation == Some(incoming.at.incarnation) && a.startedAt == Some(incoming.at.startedAt))
    && incoming.sentAt <= now + ANNOUNCE_FUTURE_SKEW_MS
  }

  /** The newer of the watermark and the incoming preview; another incarnation's watermark does not count. */
  function NewerOf(b: Book, session: string, incoming: LiveOutput): LiveOutput {
    if session in b.live
       && b.live[session].at.incarnation == incoming.at.incarnation && b.live[session].at.startedAt == incoming.at.startedAt
       && CompareLiveCoordinates(incoming.at, b.live[session].at) <= 0
    then b.live[session] else incoming
  }

  /** The preview a read displays, if any. */
  function Displayed(b: Book, e: Event): Option<LiveOutput>
    requires e.PreviewRead?
  {
    if e.aborted || e.incoming.None? || !Eligible(b, e.session, e.incoming.value, e.now) then None
    else
      var latest := NewerOf(b, e.session, e.incoming.value);
      var age := e.now - latest.sentAt;
      if age < -ANNOUNCE_FUTURE_SKEW_MS || age >= PREVIEW_TTL_MS then None else Some(latest)
  }

  function Handle(b: Book, e: Event): Book {
    match e
    case Terminal(session) => OnTerminalSpec(b, session)
    case Announced(routed, session, announce, at) => OnAnnounceSpec(b, routed, session, announce, at)
    case PreviewRead(session, aborted, incoming, now) =>
      if aborted || incoming.None? || !Eligible(b, session, incoming.value, now) then b
      else b.(live := b.live[session := NewerOf(b, session, incoming.value)])
  }

  class ViewerPresence {
    var accepted: map<string, Row>
    var terminals: set<string>
    var live: map<string, LiveOutput>

    ghost function Value(): Book
      reads this
    {
      Book(accepted, terminals, live)
    }

    constructor ()
      ensures Value() == NOTHING
    {
      accepted, terminals, live := map[], {}, map[];
    }

    /** True when the caller is told to drop the row. */
    method OnTerminal(session: string) returns (reported: bool)
      modifies this
      ensures Value() == Handle(old(Value()), Terminal(session))
      ensures reported <==> session != "" && session !in old(terminals)
    {
      if session == "" || session in terminals {
        return false;
      }
      terminals := terminals + {session};
      live := live - {session};
      accepted := accepted - {session};
      return true;
    }

    /** The row that is yielded when the announce is accepted. */
    method OnAnnounce(routed: string, session: string, announce: Announce, at: real) returns (yielded: Option<Row>)
      modifies this
      ensures Value() == Handle(old(Value()), Announced(routed, session, announce, at))
      ensures yielded.Some? <==> routed !in old(terminals) && session !in old(terminals)
                                 && ShouldAccept(AnnounceOf(RowOf(old(Value()), session)), announce)
      ensures yielded.Some? ==> RowOf(Value(), session) == yielded && yielded.value.announce == announce
    {
      if routed in terminals || session in terminals {
        return None;
      }
      var existing := if session in accepted then Some(accepted[session]) else None;
      if !ShouldAccept(AnnounceOf(existing), announce) {
        assert accepted[session := accepted[session]] == accepted;
        return None;
      }
      var row := Row(announce, FreshnessAt(existing, announce, at));
      accepted := accepted[session := row];
      return Some(row);
    }

    method ReadLiveOutput(session: string, aborted: bool, incoming: Option<LiveOutput>, now: real)
      returns (shown: Option<LiveOutput>)
      modifies this
      ensures Value() == Handle(old(Value()), PreviewRead(session, aborted, incoming, now))
      ensures shown == Displayed(old(Value()), PreviewRead(session, aborted, incoming, now))
    {
      if aborted || incoming.None? || session in terminals || session !in accepted {
        return None;
      }
      var a, preview := accepted[session].announce, incoming.value;
      if !a.live || a.incarnation != Some(preview.at.incarnation) || a.startedAt != Some(preview.at.startedAt) {
        return None;
      }
      if preview.sentAt > now + ANNOUNCE_FUTURE_SKEW_MS {
        return None;
      }
      var latest := preview;
      if session in live {
        var previous := live[session];
        if previous.at.incarnation == preview.at.incarnation && previous.at.startedAt == preview.at.startedAt
           && CompareLiveCoordinates(preview.at, previous.at) <= 0 {
          latest := previous;
        }
      }
      live := live[session := latest];
      var age := now - latest.sentAt;
      return if age < -ANNOUNCE_FUTURE_SKEW_MS || age >= PREVIEW_TTL_MS then None else Some(latest);
    }
  }

  // ---------------------------------------------------------------------------------------------
  // Tombstones
  // ---------------------------------------------------------------------------------------------

  function HandleAll(b: Book, events: seq<Event>): Book
    decreases events
  {
    if events == [] then b else HandleAll(Handle(b, events[0]), events[1..])
  }

  /** A tombstoned session has neither row nor watermark, and a watermark belongs to a row. */
  ghost predicate Sound(b: Book) { b.accepted.Keys !! b.terminals && b.live.Keys <= b.accepted.Keys }

  lemma HandleKeepsSound(b: Book, e: Event)
    requires Sound(b)
    ensures Sound(Handle(b, e)) && b.terminals <= Handle(b, e).terminals
  {
  }

  /** Once a session's terminal has been seen, no event of any kind brings back its row or shows its preview. */
  lemma {:induction false} TombstoneIsForever(b: Book, events: seq<Event>, session: string)
    requires Sound(b) && session in b.terminals
    ensures Sound(HandleAll(b, events)) && session in HandleAll(b, events).terminals
    ensures RowOf(HandleAll(b, events), session) == None
    ensures forall e: Event :: e.PreviewRead? && e.session == session ==> Displayed(HandleAll(b, events), e) == None
    decreases events
  {
    if events != [] {
      HandleKeepsSound(b, events[0]);
      TombstoneIsForever(Handle(b, events[0]), events[1..], session);
    }
  }

  // ---------------------------------------------------------------------------------------------
  // Confluence
  // ---------------------------------------------------------------------------------------------

  function TerminalsIn(events: seq<Event>): set<string> {
    set e | e in events && e.Terminal? && e.session != "" :: e.session
  }

  /** The announces of one session, in the order of arrival. */
  function StreamOf(events: seq<Event>, session: string): seq<Announce> {
    if events == [] then []
    else (if events[0].Announced? && events[0].session == session then [events[0].announce] else [])
         + StreamOf(events[1..], session)
  }

  lemma {:induction false} LatestAppend(existing: Option<Announce>, a: seq<Announce>, b: seq<Announce>)
    ensures Latest(existing, a + b) == Latest(Latest(existing, a), b)
    decreases a
  {
    if a == [] {
      assert a + b == b;
    } else {
      assert (a + b)[1..] == a[1..] + b;
      LatestAppend(if ShouldAccept(existing, a[0]) then Some(a[0]) else existing, a[1..], b);
    }
  }

  predicate Carries(e: Event, session: string, a: Announce) {
    e.Announced? && e.session == session && e.announce == a
  }

  /** The announces of one session that no tombstone of their routing id drops. */
  function Kept(b: Book, events: seq<Event>, session: string): seq<Announce>
    decreases events
  {
    if events == [] then []
    else (if events[0].Announced? && events[0].session == session && events[0].routed !in b.terminals
          then [events[0].announce] else [])
         + Kept(Handle(b, events[0]), events[1..], session)
  }

  /** Whatever happens, a session that has not ended lists the outcome of the announces that were kept. */
  lemma {:induction false} RowIsLatest(b: Book, events: seq<Event>, session: string)
    requires Sound(b)
    ensures HandleAll(b, events).terminals == b.terminals + TerminalsIn(events)
    ensures AnnounceOf(RowOf(HandleAll(b, events), session))
         == if session in b.terminals + TerminalsIn(events) then None
            else Latest(AnnounceOf(RowOf(b, session)), Kept(b, events, session))
    decreases events
  {
    if events != [] {
      var e, rest := events[0], events[1..];
      assert TerminalsIn(events) == TerminalsIn(rest) + if e.Terminal? && e.session != "" then {e.session} else {};
      HandleKeepsSound(b, e);
      RowIsLatest(Handle(b, e), rest, session);
      var own := if e.Announced? && e.session == session && e.routed !in b.terminals then [e.announce] else [];
      LatestAppend(AnnounceOf(RowOf(b, session)), own, Kept(Handle(b, e), rest, session));
      assert own != [] ==> own[1..] == [];
      RowAfterEvent(b, e, session, own);
    }
  }

  lemma RowAfterEvent(b: Book, e: Event, session: string, own: seq<Announce>)
    requires Sound(b)
    requires own == if e.Announced? && e.session == session && e.routed !in b.terminals then [e.announce] else []
    ensures Handle(b, e).terminals == b.terminals + if e.Terminal? && e.session != "" then {e.session} else {}
    ensures session !in Handle(b, e).terminals ==>
              AnnounceOf(RowOf(Handle(b, e), session)) == Latest(AnnounceOf(RowOf(b, session)), own)
  {
    assert own != [] ==> own[1..] == [];
  }

  /** What is kept was announced; and what comes under an id that does not end is kept. */
  lemma {:induction false} KeptBounds(b: Book, events: seq<Event>, session: string)
    requires Sound(b)
    ensures forall a :: a in Kept(b, events, session) ==>
              exists e :: e in events && Carries(e, session, a) && e.routed !in b.terminals
    ensures forall e :: e in events && e.Announced? && e.session == session && e.routed !in b.terminals + TerminalsIn(events)
              ==> e.announce in Kept(b, events, session)
    decreases events
  {
    if events != [] {
      var e, rest := events[0], events[1..];
      assert events == [e] + rest;
      assert TerminalsIn(events) == TerminalsIn(rest) + if e.Terminal? && e.session != "" then {e.session} else {};
      RowAfterEvent(b, e, "", if e.Announced? && e.session == "" && e.routed !in b.terminals then [e.announce] else []);
      HandleKeepsSound(b, e);
      KeptBounds(Handle(b, e), rest, session);
    }
  }

  /** The announces of the session are routed under itself, or under an id that does not end. */
  predicate SafelyRouted(events: seq<Event>, session: string) {
    forall e :: e in events && e.Announced? && e.session == session ==>
      e.routed == session || e.routed !in TerminalsIn(events)
  }

  lemma {:induction false} StreamElements(events: seq<Event>, session: string)
    ensures forall a :: a in StreamOf(events, session) <==> exists e :: e in events && Carries(e, session, a)
  {
    if events != [] {
      var e, rest := events[0], events[1..];
      assert events == [e] + rest;
      StreamElements(rest, session);
      forall a | a in StreamOf(events, session) ensures exists x :: x in events && Carries(x, session, a) {
        if a in StreamOf(rest, session) {
          var x :| x in rest && Carries(x, session, a);
          assert x in events;
        } else {
          assert Carries(e, session, a);
        }
      }
    }
  }

  lemma SafelyRoutedKeepsAll(events: seq<Event>, session: string)
    requires SafelyRouted(events, session) && session !in TerminalsIn(events)
    ensures Elements(Kept(NOTHING, events, session)) == Elements(StreamOf(events, session))
  {
    KeptBounds(NOTHING, events, session);
    StreamElements(events, session);
  }

  /**
   * Two viewers that received the same terminals and the same announces of a session, in any order and
   * with any repetition, list it with the same announce, as long as acceptance orders its announces and
   * none of them comes under another session that ends.
   */
  lemma PresenceIsConfluent(one: seq<Event>, two: seq<Event>, session: string)
    requires SafelyRouted(one, session) && SafelyRouted(two, session)
    requires TerminalsIn(one) == TerminalsIn(two)
    requires Elements(StreamOf(one, session)) == Elements(StreamOf(two, session)) && Linear(Elements(StreamOf(one, session)))
    ensures session in HandleAll(NOTHING, one).terminals <==> session in HandleAll(NOTHING, two).terminals
    ensures AnnounceOf(RowOf(HandleAll(NOTHING, one), session)) == AnnounceOf(RowOf(HandleAll(NOTHING, two), session))
  {
    RowIsLatest(NOTHING, one, session);
    RowIsLatest(NOTHING, two, session);
    if session !in TerminalsIn(one) {
      SafelyRoutedKeepsAll(one, session);
      SafelyRoutedKeepsAll(two, session);
      LinearConverges(Elements(StreamOf(one, session)), Kept(NOTHING, one, session), Kept(NOTHING, two, session));
    }
  }

  // ---------------------------------------------------------------------------------------------
  // Confluence exactly
  // ---------------------------------------------------------------------------------------------

  function EventSet(events: seq<Event>): set<Event> { set e | e in events }

  function TerminalsOf(s: set<Event>): set<string> {
    set e | e in s && e.Terminal? && e.session != "" :: e.session
  }

  function AnnouncesOf(s: set<Event>, session: string): set<Announce> {
    set e | e in s && e.Announced? && e.session == session :: e.announce
  }

  /** However the events of `s` are ordered and repeated, the session is listed with the same announce. */
  ghost predicate OrderIsInvisible(s: set<Event>, session: string) {
    forall one, two :: EventSet(one) == s && EventSet(two) == s ==>
      AnnounceOf(RowOf(HandleAll(NOTHING, one), session)) == AnnounceOf(RowOf(HandleAll(NOTHING, two), session))
  }

  /** `m` also comes under a routing id that does not end. */
  ghost predicate ComesSafely(s: set<Event>, session: string, m: Announce) {
    exists e :: e in s && Carries(e, session, m) && e.routed !in TerminalsOf(s)
  }

  lemma {:induction false} EventListing(s: set<Event>) returns (list: seq<Event>)
    ensures EventSet(list) == s
  {
    if s == {} {
      list := [];
    } else {
      var e :| e in s;
      var rest := EventListing(s - {e});
      list := rest + [e];
      assert EventSet(list) == EventSet(rest) + {e};
    }
  }

  lemma {:induction false} HandleAppend(b: Book, x: seq<Event>, y: seq<Event>, session: string)
    ensures HandleAll(b, x + y) == HandleAll(HandleAll(b, x), y)
    ensures Kept(b, x + y, session) == Kept(b, x, session) + Kept(HandleAll(b, x), y, session)
    decreases x
  {
    if x == [] {
      assert x + y == y;
    } else {
      assert (x + y)[0] == x[0] && (x + y)[1..] == x[1..] + y;
      HandleAppend(Handle(b, x[0]), x[1..], y, session);
      AppendAssociates(Kept(b, x[..1], session), Kept(Handle(b, x[0]), x[1..], session),
                       Kept(HandleAll(b, x), y, session));
      assert x[..1] == [x[0]] && [x[0]][1..] == [];
      assert Kept(b, [x[0]], session) == Kept(b, x[..1], session);
    }
  }

  lemma NewestIsLatest(stream: seq<Announce>, s: set<Announce>, m: Announce)
    requires Linear(s) && Newest(m, s) && Elements(stream) <= s && m in stream
    ensures Latest(None, stream) == Some(m)
  {
    LatestOfStream(stream, s);
    var n := Latest(None, stream).value;
    assert m in Elements(stream) && n in Elements(stream);
    assert m != n ==> Replaces(m, n) && Replaces(n, m);
  }

  lemma {:induction false} LatestComesFromStream(existing: Option<Announce>, stream: seq<Announce>)
    ensures Latest(existing, stream) == existing
            || (Latest(existing, stream).Some? && Latest(existing, stream).value in stream)
    decreases stream
  {
    if stream != [] {
      LatestComesFromStream(if ShouldAccept(existing, stream[0]) then Some(stream[0]) else existing, stream[1..]);
    }
  }

  lemma KeptInSet(events: seq<Event>, s: set<Event>, session: string)
    requires EventSet(events) == s
    ensures TerminalsIn(events) == TerminalsOf(s)
    ensures Elements(Kept(NOTHING, events, session)) <= AnnouncesOf(s, session)
    ensures forall m :: ComesSafely(s, session, m) ==> m in Kept(NOTHING, events, session)
  {
    KeptBounds(NOTHING, events, session);
    assert forall e :: e in events <==> e in s;
    forall m | ComesSafely(s, session, m) ensures m in Kept(NOTHING, events, session) {
      var e :| e in s && Carries(e, session, m) && e.routed !in TerminalsOf(s);
      assert e in events && e.announce == m;
    }
  }

  lemma SafeNewestIsListed(events: seq<Event>, s: set<Event>, session: string, m: Announce)
    requires EventSet(events) == s && session !in TerminalsOf(s) && Linear(AnnouncesOf(s, session))
    requires Newest(m, AnnouncesOf(s, session)) && ComesSafely(s, session, m)
    ensures AnnounceOf(RowOf(HandleAll(NOTHING, events), session)) == Some(m)
  {
    KeptInSet(events, s, session);
    RowIsLatest(NOTHING, events, session);
    NewestIsLatest(Kept(NOTHING, events, session), AnnouncesOf(s, session), m);
  }

  /** Terminals first: the announce is dropped every time it comes. */
  lemma TerminalsFirstDrops(s: set<Event>, session: string, m: Announce) returns (events: seq<Event>)
    requires !ComesSafely(s, session, m)
    ensures EventSet(events) == s
    ensures AnnounceOf(RowOf(HandleAll(NOTHING, events), session)) != Some(m)
  {
    var ends := EventListing(set e | e in s && e.Terminal?);
    var all := EventListing(s);
    events := ends + all;
    assert EventSet(events) == EventSet(ends) + EventSet(all);
    assert forall e :: e in ends <==> e in EventSet(ends);
    assert forall e :: e in all <==> e in s;
    RowIsLatest(NOTHING, ends, session);
    assert TerminalsIn(ends) == TerminalsOf(s);
    HandleKeepsSoundAll(NOTHING, ends);
    RowIsLatest(HandleAll(NOTHING, ends), all, session);
    HandleAppend(NOTHING, ends, all, session);
    KeptBounds(NOTHING, ends, session);
    KeptBounds(HandleAll(NOTHING, ends), all, session);
    LatestComesFromStream(None, Kept(HandleAll(NOTHING, ends), all, session));
    assert Elements(Kept(NOTHING, ends, session)) == {};
    NoElementsIffEmpty(Kept(NOTHING, ends, session));
  }

  lemma {:induction false} HandleKeepsSoundAll(b: Book, events: seq<Event>)
    requires Sound(b)
    ensures Sound(HandleAll(b, events))
    decreases events
  {
    if events != [] {
      HandleKeepsSound(b, events[0]);
      HandleKeepsSoundAll(Handle(b, events[0]), events[1..]);
    }
  }

  /** Announces first: nothing is dropped before the newest has been listed, and nothing replaces it. */
  lemma AnnouncesFirstKeeps(s: set<Event>, session: string, m: Announce) returns (events: seq<Event>)
    requires session !in TerminalsOf(s) && Linear(AnnouncesOf(s, session)) && Newest(m, AnnouncesOf(s, session))
    ensures EventSet(events) == s
    ensures AnnounceOf(RowOf(HandleAll(NOTHING, events), session)) == Some(m)
  {
    var own := set e | e in s && e.Announced?;
    var announces := EventListing(own);
    var all := EventListing(s);
    events := announces + all;
    assert EventSet(events) == EventSet(announces) + EventSet(all);
    assert forall e :: e in announces <==> e in EventSet(announces);
    KeptInSet(events, s, session);
    KeptBounds(NOTHING, announces, session);
    HandleAppend(NOTHING, announces, all, session);
    var e :| e in s && e.Announced? && e.session == session && e.announce == m;
    assert e in own;
    assert e in EventSet(announces);
    assert TerminalsIn(announces) == {} by {
      assert forall x :: x in announces ==> !x.Terminal?;
    }
    RowIsLatest(NOTHING, events, session);
    NewestIsLatest(Kept(NOTHING, events, session), AnnouncesOf(s, session), m);
  }

  /**
   * Exactly when the order of arrival is invisible, for a session whose announces acceptance orders: it
   * ends, or its newest announce also comes under a routing id that does not.
   */
  lemma PresenceConvergesIff(s: set<Event>, session: string)
    requires Linear(AnnouncesOf(s, session))
    ensures OrderIsInvisible(s, session) <==>
            session in TerminalsOf(s)
            || forall m :: Newest(m, AnnouncesOf(s, session)) ==> ComesSafely(s, session, m)
  {
    if session in TerminalsOf(s) {
      forall events | EventSet(events) == s ensures RowOf(HandleAll(NOTHING, events), session) == None {
        KeptInSet(events, s, session);
        RowIsLatest(NOTHING, events, session);
      }
    } else if m :| Newest(m, AnnouncesOf(s, session)) && !ComesSafely(s, session, m) {
      var one := TerminalsFirstDrops(s, session, m);
      var two := AnnouncesFirstKeeps(s, session, m);
    } else {
      forall one, two | EventSet(one) == s && EventSet(two) == s
        ensures AnnounceOf(RowOf(HandleAll(NOTHING, one), session)) == AnnounceOf(RowOf(HandleAll(NOTHING, two), session))
      {
        SafeNewestAgrees(one, two, s, session);
      }
    }
  }

  lemma SafeNewestAgrees(one: seq<Event>, two: seq<Event>, s: set<Event>, session: string)
    requires EventSet(one) == s && EventSet(two) == s && Linear(AnnouncesOf(s, session)) && session !in TerminalsOf(s)
    requires forall m :: Newest(m, AnnouncesOf(s, session)) ==> ComesSafely(s, session, m)
    ensures AnnounceOf(RowOf(HandleAll(NOTHING, one), session)) == AnnounceOf(RowOf(HandleAll(NOTHING, two), session))
  {
    var announces := StreamOf(one, session);
    StreamElements(one, session);
    assert forall e :: e in one <==> e in s;
    assert Elements(announces) == AnnouncesOf(s, session);
    if announces == [] {
      forall events | EventSet(events) == s ensures AnnounceOf(RowOf(HandleAll(NOTHING, events), session)) == None {
        KeptInSet(events, s, session);
        NoElementsIffEmpty(Kept(NOTHING, events, session));
        RowIsLatest(NOTHING, events, session);
      }
    } else {
      LatestOfStream(announces, AnnouncesOf(s, session));
      var m := Latest(None, announces).value;
      SafeNewestIsListed(one, s, session, m);
      SafeNewestIsListed(two, s, session, m);
    }
  }

  /** An announce routed under one session but naming another is dropped or kept depending on the order. */
  lemma ForeignRoutingDependsOnOrder(x: string, y: string, a: Announce)
    requires x != y && x != ""
    ensures !OrderIsInvisible({Terminal(x), Announced(x, y, a, 0.0)}, y)
  {
    var s := {Terminal(x), Announced(x, y, a, 0.0)};
    assert AnnouncesOf(s, y) == {a};
    assert Terminal(x) in s && x in TerminalsOf(s);
    assert Newest(a, {a}) && !ComesSafely(s, y, a);
    PresenceConvergesIff(s, y);
  }
}
