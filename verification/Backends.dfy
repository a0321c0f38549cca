/**
 * The in-memory backend (apps/web/lib/broker/local.ts) and the workflow relay
 * (apps/web/workflows/relay.ts), and exactly when the SQLite log agrees with them.
 */
module Backends {
  import opened Common
  import opened Channel
  import Subscription

  datatype Payload = Frame(w: Wire) | CloseSentinel

  const PRESENCE_BUS_PREFIX := "bus:presence-v2:"

  predicate IsPresenceBus(token: string) { PRESENCE_BUS_PREFIX <= token }

  function Latch(bus: bool, terminals: set<string>, w: Wire): set<string> {
    if bus && IsTerminal(w) then terminals + {w.sessionId} else terminals
  }

  /** The frames the fence lets through, in order. */
  function Filtered(bus: bool, terminals: set<string>, ws: seq<Wire>): seq<Wire>
    decreases ws
  {
    if ws == [] then []
    else if Fenced(bus, terminals, ws[0]) then Filtered(bus, terminals, ws[1..])
    else [ws[0]] + Filtered(bus, Latch(bus, terminals, ws[0]), ws[1..])
  }

  // ---------------------------------------------------------------------------------------------
  // The relay run
  // ---------------------------------------------------------------------------------------------

  function BeforeClose(payloads: seq<Payload>): seq<Wire> {
    if payloads == [] || payloads[0].CloseSentinel? then []
    else [payloads[0].w] + BeforeClose(payloads[1..])
  }

  lemma FilteredStep(bus: bool, terminals: set<string>, w: Wire, rest: seq<Wire>)
    ensures Filtered(bus, terminals, [w] + rest) ==
            (if Fenced(bus, terminals, w) then [] else [w])
            + Filtered(bus, if Fenced(bus, terminals, w) then terminals else Latch(bus, terminals, w), rest)
  {
    assert ([w] + rest)[1..] == rest;
  }

  /** One durable relay run over the payloads its hook receives: it emits the filtered stream, up to the close. */
  method RelayWorkflow(token: string, payloads: seq<Payload>) returns (emitted: seq<Wire>)
    ensures emitted == Filtered(IsPresenceBus(token), {}, BeforeClose(payloads))
  {
    var bus := IsPresenceBus(token);
    var terminalSessions: set<string> := {};
    emitted := [];
    var i := 0;
    assert payloads[0..] == payloads;
    while i < |payloads|
      invariant 0 <= i <= |payloads|
      invariant emitted + Filtered(bus, terminalSessions, BeforeClose(payloads[i..]))
                == Filtered(bus, {}, BeforeClose(payloads))
    {
      assert payloads[i..][0] == payloads[i] && payloads[i..][1..] == payloads[i + 1..];
      if payloads[i].CloseSentinel? {
        break;
      }
      var w := payloads[i].w;
      FilteredStep(bus, terminalSessions, w, BeforeClose(payloads[i + 1..]));
      i := i + 1;
      if bus && IsTerminal(w) {
        if w.sessionId in terminalSessions {
          continue;
        }
        terminalSessions := terminalSessions + {w.sessionId};
        AppendAssociates(emitted, [w], Filtered(bus, terminalSessions, BeforeClose(payloads[i..])));
        emitted := emitted + [w];
        continue;
      }
      if bus && IsAnnounce(w) && w.sessionId in terminalSessions {
        continue;
      }
      AppendAssociates(emitted, [w], Filtered(bus, terminalSessions, BeforeClose(payloads[i..])));
      emitted := emitted + [w];
    }
  }

  // ---------------------------------------------------------------------------------------------
  // The in-memory backend
  // ---------------------------------------------------------------------------------------------

  /** A live stream: where it started and what has been enqueued on it. */
  datatype Subscriber = Subscriber(start: nat, received: seq<Wire>)

  datatype LocalChannel = LocalChannel(id: nat, frames: seq<Wire>, subs: map<nat, Subscriber>)

  /** What the backend holds for one token. */
  datatype Local = Local(channel: Option<LocalChannel>, terminals: set<string>)

  const ABSENT := Local(None, {})

  function Received(s: Subscriber, w: Wire): Subscriber { s.(received := s.received + [w]) }

  /** Append and fan out; a stream whose consumer is gone drops out. */
  function Append(ch: LocalChannel, w: Wire, gone: set<nat>): LocalChannel {
    ch.(frames := ch.frames + [w], subs := map i | i in ch.subs && i !in gone :: Received(ch.subs[i], w))
  }

  function Opened(l: Local, id: nat): LocalChannel {
    if l.channel.Some? then l.channel.value else LocalChannel(id, [], map[])
  }

  function LocalPublish(l: Local, bus: bool, p: Payload, id: nat, gone: set<nat>): Local {
    match p
    case CloseSentinel => l.(channel := None)
    case Frame(w) =>
      if Fenced(bus, l.terminals, w) then l
      else Local(Some(Append(Opened(l, id), w, gone)), Latch(bus, l.terminals, w))
  }

  /** Replay from the clamped start index and register as stream `sub`. */
  function LocalSubscribe(l: Local, start: Option<int>, sub: nat): Local {
    if l.channel.None? then l
    else
      var ch := l.channel.value;
      var k := Subscription.Clamp(start, |ch.frames|);
      l.(channel := Some(ch.(subs := ch.subs[sub := Subscriber(k, ch.frames[k..])])))
  }

  class LocalBackend {
    var channels: map<string, LocalChannel>
    var presenceTerminals: map<string, set<string>>
    var nextId: nat
    var nextSub: nat

    constructor ()
      ensures forall t :: At(t) == ABSENT
    {
      channels, presenceTerminals, nextId, nextSub := map[], map[], 0, 0;
    }

    function At(token: string): Local
      reads this
    {
      Local(if token in channels then Some(channels[token]) else None,
            if token in presenceTerminals then presenceTerminals[token] else {})
    }

    /** Deliver one frame to every stream of a channel, dropping the streams whose enqueue fails. */
    method FanOut(subs: map<nat, Subscriber>, w: Wire, gone: set<nat>) returns (after: map<nat, Subscriber>)
      ensures after == map i | i in subs && i !in gone :: Received(subs[i], w)
    {
      after := subs;
      var todo := subs.Keys;
      while todo != {}
        invariant todo <= subs.Keys && after.Keys <= subs.Keys
        invariant forall i :: i in todo ==> i in after && after[i] == subs[i]
        invariant forall i :: i in subs && i !in todo ==> (i in after <==> i !in gone)
        invariant forall i :: i in after && i !in todo ==> after[i] == Received(subs[i], w)
        decreases todo
      {
        var i :| i in todo;
        if i in gone {
          after := after - {i};
        } else {
          after := after[i := Received(after[i], w)];
        }
        todo := todo - {i};
      }
    }

    method PublishPayload(token: string, p: Payload, gone: set<nat>) returns (created: bool)
      modifies this
      ensures At(token) == LocalPublish(old(At(token)), IsPresenceBus(token), p, old(nextId), gone)
      ensures forall t :: t != token ==> At(t) == old(At(t))
      ensures created <==> old(At(token)).channel.None? && At(token).channel.Some?
      ensures nextSub == old(nextSub)
    {
      if p.CloseSentinel? {
        channels := channels - {token};
        return false;
      }
      var bus := IsPresenceBus(token);
      var terminals := if token in presenceTerminals then presenceTerminals[token] else {};
      if bus && (IsTerminal(p.w) || IsAnnounce(p.w)) && p.w.sessionId in terminals {
        return false;
      }
      if bus && IsTerminal(p.w) {
        presenceTerminals := presenceTerminals[token := terminals + {p.w.sessionId}];
      }
      created := token !in channels;
      if created {
        channels := channels[token := LocalChannel(nextId, [], map[])];
        nextId := nextId + 1;
      }
      var channel := channels[token];
      var subs := FanOut(channel.subs, p.w, gone);
      channels := channels[token := channel.(frames := channel.frames + [p.w], subs := subs)];
      assert channels[token] == Append(Opened(old(At(token)), old(nextId)), p.w, gone);
      assert At(token).terminals == Latch(bus, terminals, p.w);
    }

    /** Replay from the clamped start index, then register for live frames; None when there is no channel. */
    method Subscribe(token: string, start: Option<int>) returns (sub: Option<nat>)
      modifies this
      ensures forall t :: t != token ==> At(t) == old(At(t))
      ensures sub == if old(At(token)).channel.None? then None else Some(old(nextSub))
      ensures At(token) == LocalSubscribe(old(At(token)), start, old(nextSub))
      ensures nextSub == old(nextSub) + if sub.Some? then 1 else 0
    {
      if token !in channels {
        return None;
      }
      var channel := channels[token];
      var len := |channel.frames|;
      var k := 0;
      if start.Some? {
        k := if start.value < 0 then (if len + start.value > 0 then len + start.value else 0)
             else (if start.value < len then start.value else len);
      }
      sub := Some(nextSub);
      nextSub := nextSub + 1;
      channels := channels[token := channel.(subs := channel.subs[sub.value := Subscriber(k, channel.frames[k..])])];
    }
  }

  /** Every live stream has received exactly the channel's frames from its start index on. */
  ghost predicate StreamsExact(l: Local) {
    l.channel.Some? ==>
      forall i :: i in l.channel.value.subs ==>
        var s := l.channel.value.subs[i];
        s.start <= |l.channel.value.frames| && s.received == l.channel.value.frames[s.start..]
  }

  /** What happens to one token: `id` numbers a channel it opens, `sub` a stream. */
  datatype Action = Publish(p: Payload, id: nat, gone: set<nat>) | Subscribe(start: Option<int>, sub: nat)

  function Act(l: Local, bus: bool, a: Action): Local {
    match a
    case Publish(p, id, gone) => LocalPublish(l, bus, p, id, gone)
    case Subscribe(start, sub) => LocalSubscribe(l, start, sub)
  }

  function ActAll(l: Local, bus: bool, actions: seq<Action>): Local
    decreases actions
  {
    if actions == [] then l else ActAll(Act(l, bus, actions[0]), bus, actions[1..])
  }

  lemma ActKeepsExact(l: Local, bus: bool, a: Action)
    requires StreamsExact(l)
    ensures StreamsExact(Act(l, bus, a))
  {
    if a.Publish? && a.p.Frame? && !Fenced(bus, l.terminals, a.p.w) {
      var ch := Opened(l, a.id);
      var ch' := Append(ch, a.p.w, a.gone);
      forall i | i in ch'.subs
        ensures ch'.subs[i].start <= |ch'.frames| && ch'.subs[i].received == ch'.frames[ch'.subs[i].start..]
      {
        var s := ch.subs[i];
        assert (ch.frames + [a.p.w])[s.start..] == ch.frames[s.start..] + [a.p.w];
      }
    }
  }

  /**
   * Over every run of publishes, closes and subscriptions, whichever consumers go away: each live stream
   * has received the channel's frames from its start index on.
   */
  lemma {:induction false} LocalStreamsStayExact(l: Local, bus: bool, actions: seq<Action>)
    requires StreamsExact(l)
    ensures StreamsExact(ActAll(l, bus, actions))
    decreases actions
  {
    if actions != [] {
      ActKeepsExact(l, bus, actions[0]);
      LocalStreamsStayExact(Act(l, bus, actions[0]), bus, actions[1..]);
    }
  }

  predicate Live(l: Local, sub: nat) { l.channel.Some? && sub in l.channel.value.subs }

  predicate NeverSubscribes(actions: seq<Action>, sub: nat) {
    forall a :: a in actions && a.Subscribe? ==> a.sub != sub
  }

  function Payloads(actions: seq<Action>): seq<Payload> {
    if actions == [] then []
    else (if actions[0].Publish? then [actions[0].p] else []) + Payloads(actions[1..])
  }

  lemma {:induction false} GoneStaysGone(l: Local, bus: bool, actions: seq<Action>, sub: nat)
    requires NeverSubscribes(actions, sub) && !Live(l, sub)
    ensures !Live(ActAll(l, bus, actions), sub)
    decreases actions
  {
    if actions != [] {
      assert actions[0] in actions;
      GoneStaysGone(Act(l, bus, actions[0]), bus, actions[1..], sub);
    }
  }

  function ReceivedOn(l: Local, sub: nat): seq<Wire>
    requires Live(l, sub)
  {
    l.channel.value.subs[sub].received
  }

  /** One step that leaves the stream live sends it the published frame, unless the fence holds that back. */
  lemma LiveStreamStep(l: Local, bus: bool, a: Action, sub: nat, rest: seq<Payload>)
    requires Live(l, sub) && Live(Act(l, bus, a), sub) && (a.Subscribe? ==> a.sub != sub)
    ensures a.Publish? ==> a.p.Frame?
    ensures ReceivedOn(Act(l, bus, a), sub) + Filtered(bus, Act(l, bus, a).terminals, BeforeClose(rest))
         == ReceivedOn(l, sub)
            + Filtered(bus, l.terminals, BeforeClose((if a.Publish? then [a.p] else []) + rest))
  {
    if a.Publish? {
      var w := a.p.w;
      assert ([a.p] + rest)[1..] == rest;
      assert BeforeClose([a.p] + rest) == [w] + BeforeClose(rest);
      FilteredStep(bus, l.terminals, w, BeforeClose(rest));
      if !Fenced(bus, l.terminals, w) {
        AppendAssociates(ReceivedOn(l, sub), [w], Filtered(bus, Latch(bus, l.terminals, w), BeforeClose(rest)));
      }
    } else {
      assert [] + rest == rest;
    }
  }

  /**
   * A stream that is still live after a run was never closed in between, and has been sent exactly the
   * frames published since that the fence let through, in order.
   */
  lemma {:induction false} LiveStreamGetsEveryFrameSince(l: Local, bus: bool, actions: seq<Action>, sub: nat)
    requires NeverSubscribes(actions, sub) && Live(l, sub) && Live(ActAll(l, bus, actions), sub)
    ensures CloseSentinel !in Payloads(actions)
    ensures ReceivedOn(ActAll(l, bus, actions), sub)
         == ReceivedOn(l, sub) + Filtered(bus, l.terminals, BeforeClose(Payloads(actions)))
    decreases actions
  {
    if actions != [] {
      var a, rest := actions[0], actions[1..];
      assert a in actions;
      if !Live(Act(l, bus, a), sub) {
        GoneStaysGone(Act(l, bus, a), bus, rest, sub);
      }
      LiveStreamGetsEveryFrameSince(Act(l, bus, a), bus, rest, sub);
      LiveStreamStep(l, bus, a, sub, Payloads(rest));
    }
  }

  // ---------------------------------------------------------------------------------------------
  // Agreement
  // ---------------------------------------------------------------------------------------------

  /** The stream a subscriber from index 0 sees of the live incarnation. */
  function LocalView(l: Local): seq<Wire> {
    if l.channel.Some? then l.channel.value.frames else []
  }

  function SqliteView(db: Db): seq<Wire> {
    if db.closed then [] else Subscription.Frames(OfGen(db.log, db.gen))
  }

  function ToEvent(p: Payload): Event {
    match p
    case Frame(w) => Put(w)
    case CloseSentinel => Shut
  }

  function LocalRun(l: Local, bus: bool, payloads: seq<Payload>): Local
    decreases payloads
  {
    if payloads == [] then l else LocalRun(LocalPublish(l, bus, payloads[0], 0, {}), bus, payloads[1..])
  }

  function SqliteRun(db: Db, bus: bool, payloads: seq<Payload>): Db
    decreases payloads
  {
    if payloads == [] then db else SqliteRun(Channel.Apply(db, bus, ToEvent(payloads[0])), bus, payloads[1..])
  }

  predicate SameSlot(v: Wire, w: Wire) {
    v.msgId.Some? && v.part.Some? && v.msgId == w.msgId && v.part == w.part
  }

  /** The publish reuses a coordinate of the live incarnation (and is not silenced by the fence). */
  predicate Reuses(l: Local, bus: bool, p: Payload) {
    p.Frame? && !Fenced(bus, l.terminals, p.w) && exists v :: v in LocalView(l) && SameSlot(v, p.w)
  }

  predicate NeverReuses(l: Local, bus: bool, payloads: seq<Payload>)
    decreases payloads
  {
    payloads == [] ||
    (!Reuses(l, bus, payloads[0]) && NeverReuses(LocalPublish(l, bus, payloads[0], 0, {}), bus, payloads[1..]))
  }

  /** The two backends show one stream and hold one fence. */
  ghost predicate Agree(l: Local, db: Db) {
    && Sound(db)
    && LocalView(l) == SqliteView(db)
    && l.terminals == db.terminals
  }

  lemma ViewMembers(db: Db, v: Wire)
    ensures v in SqliteView(db) <==> !db.closed && exists r :: r in db.log && r.gen == db.gen && r.frame == v
  {
    var rows := OfGen(db.log, db.gen);
    Subscription.OfGenMembers(db.log, db.gen);
    if !db.closed && v in SqliteView(db) {
      var k :| 0 <= k < |rows| && SqliteView(db)[k] == v;
      assert rows[k] in rows;
    }
    if r :| !db.closed && r in db.log && r.gen == db.gen && r.frame == v {
      var k :| 0 <= k < |rows| && rows[k] == r;
      assert SqliteView(db)[k] == v;
    }
  }

  lemma OccupiedIffInView(db: Db, w: Wire)
    requires Sound(db)
    ensures Occupied(db.log, TargetGen(db), w) <==> exists v :: v in SqliteView(db) && SameSlot(v, w)
  {
    forall r | r in db.log ensures r.gen <= db.gen {
      var i :| 0 <= i < |db.log| && db.log[i] == r;
    }
    if r :| r in db.log && SameCoordinate(r, TargetGen(db), w) {
      ViewMembers(db, r.frame);
    }
    if v :| v in SqliteView(db) && SameSlot(v, w) {
      ViewMembers(db, v);
      var r :| r in db.log && r.gen == db.gen && r.frame == v;
      assert SameCoordinate(r, TargetGen(db), w);
    }
  }

  lemma AppendView(db: Db, bus: bool, w: Wire)
    requires Sound(db) && PublishTx(db, bus, w).Appended?
    ensures SqliteView(Channel.Publish(db, bus, w)) == SqliteView(db) + [w]
  {
    var gen := TargetGen(db);
    OfGenSnoc(db.log, Row(db.lastId + 1, gen, w), gen);
    if db.closed {
      FutureIsEmpty(db.log, gen);
    }
    FramesSnoc(OfGen(db.log, gen), Row(db.lastId + 1, gen, w));
  }

  lemma FramesSnoc(rows: seq<Row>, r: Row)
    ensures Subscription.Frames(rows + [r]) == Subscription.Frames(rows) + [r.frame]
  {
  }

  lemma {:induction false} FutureIsEmpty(log: seq<Row>, gen: nat)
    requires forall i :: 0 <= i < |log| ==> log[i].gen < gen
    ensures OfGen(log, gen) == []
  {
    if log != [] {
      FutureIsEmpty(log[..|log| - 1], gen);
    }
  }

  lemma StepAgrees(l: Local, db: Db, bus: bool, p: Payload)
    requires Agree(l, db)
    ensures Sound(Channel.Apply(db, bus, ToEvent(p)))
    ensures Agree(LocalPublish(l, bus, p, 0, {}), Channel.Apply(db, bus, ToEvent(p))) <==> !Reuses(l, bus, p)
    ensures Reuses(l, bus, p) ==>
              LocalView(LocalPublish(l, bus, p, 0, {})) != SqliteView(Channel.Apply(db, bus, ToEvent(p)))
  {
    ApplyKeepsSound(db, bus, ToEvent(p));
    if p.Frame? && !Fenced(bus, l.terminals, p.w) {
      OccupiedIffInView(db, p.w);
      if !Occupied(db.log, TargetGen(db), p.w) {
        AppendView(db, bus, p.w);
      } else {
        assert |SqliteView(Channel.Publish(db, bus, p.w))| == |SqliteView(db)|;
      }
    }
  }

  /**
   * The in-memory backend and the SQLite log show the same stream after every payload of a history,
   * closes and reopenings included, exactly when no publish reuses a coordinate of its incarnation.
   */
  lemma {:induction false} BackendsAgreeIffNoReuse(l: Local, db: Db, bus: bool, payloads: seq<Payload>)
    requires Agree(l, db)
    ensures NeverReuses(l, bus, payloads) <==>
            forall n :: 0 <= n <= |payloads| ==>
              LocalView(LocalRun(l, bus, payloads[..n])) == SqliteView(SqliteRun(db, bus, payloads[..n]))
    decreases payloads
  {
    if payloads == [] {
      assert payloads[..0] == [];
    } else {
      var p, rest := payloads[0], payloads[1..];
      var l', db' := LocalPublish(l, bus, p, 0, {}), Channel.Apply(db, bus, ToEvent(p));
      StepAgrees(l, db, bus, p);
      forall n | 1 <= n <= |payloads|
        ensures LocalRun(l, bus, payloads[..n]) == LocalRun(l', bus, rest[..n - 1])
        ensures SqliteRun(db, bus, payloads[..n]) == SqliteRun(db', bus, rest[..n - 1])
      {
        assert payloads[..n][0] == p && payloads[..n][1..] == rest[..n - 1];
      }
      assert payloads[..0] == [] && rest[..0] == [];
      if Reuses(l, bus, p) {
        assert LocalView(LocalRun(l, bus, payloads[..1])) != SqliteView(SqliteRun(db, bus, payloads[..1]));
      } else {
        BackendsAgreeIffNoReuse(l', db', bus, rest);
        assert forall m :: 0 <= m <= |rest| ==>
            LocalRun(l', bus, rest[..m]) == LocalRun(l, bus, payloads[..m + 1])
            && SqliteRun(db', bus, rest[..m]) == SqliteRun(db, bus, payloads[..m + 1]);
      }
    }
  }

  /** Without a close, the in-memory log and the relay's output are both the filtered stream. */
  lemma {:induction false} LocalIsFiltered(l: Local, bus: bool, payloads: seq<Payload>)
    requires forall i :: 0 <= i < |payloads| ==> payloads[i].Frame?
    ensures LocalView(LocalRun(l, bus, payloads)) == LocalView(l) + Filtered(bus, l.terminals, BeforeClose(payloads))
    decreases payloads
  {
    if payloads != [] {
      var w, rest := payloads[0].w, payloads[1..];
      LocalIsFiltered(LocalPublish(l, bus, payloads[0], 0, {}), bus, rest);
      FilteredStep(bus, l.terminals, w, BeforeClose(rest));
      if !Fenced(bus, l.terminals, w) {
        AppendAssociates(LocalView(l), [w], Filtered(bus, Latch(bus, l.terminals, w), BeforeClose(rest)));
      }
    }
  }

  /** On a close-free history that never reuses a coordinate, all three backends expose one stream. */
  lemma ThreeBackendsOneStream(bus: bool, payloads: seq<Payload>)
    requires forall i :: 0 <= i < |payloads| ==> payloads[i].Frame?
    requires NeverReuses(ABSENT, bus, payloads)
    ensures LocalView(LocalRun(ABSENT, bus, payloads)) == Filtered(bus, {}, BeforeClose(payloads))
    ensures SqliteView(SqliteRun(FRESH, bus, payloads)) == Filtered(bus, {}, BeforeClose(payloads))
  {
    LocalIsFiltered(ABSENT, bus, payloads);
    var filtered := Filtered(bus, {}, BeforeClose(payloads));
    assert [] + filtered == filtered;
    BackendsAgreeIffNoReuse(ABSENT, FRESH, bus, payloads);
    assert payloads[..|payloads|] == payloads;
  }
}
