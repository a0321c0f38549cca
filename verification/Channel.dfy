/**
 * One channel of the SQLite broker: an append-only frame log with closable incarnations and the
 * absorbing terminal fence of the presence bus (apps/web/lib/broker/sqlite-multi.ts).
 */
module Channel {
  import opened Common

  /**
   * A published frame. The stored column is its JSON text, which determines the frame, so rows hold
   * the frame itself and byte equality is frame equality. `number` is the frame's `seq`.
   */
  datatype Wire = Wire(
    recordKind: string,
    sessionId: string,
    number: Option<nat>,
    msgId: Option<string>,
    part: Option<nat>,
    payload: string)

  datatype Row = Row(id: nat, gen: nat, frame: Wire)

  /** The channel row, the frames table in id order, its AUTOINCREMENT counter, and the fence table. */
  datatype Db = Db(gen: nat, closed: bool, log: seq<Row>, lastId: nat, terminals: set<string>)

  const FRESH := Db(0, false, [], 0, {})

  predicate IsTerminal(w: Wire) { w.recordKind == "session_terminal" }

  predicate IsAnnounce(w: Wire) { w.recordKind == "session_announce" }

  /** On the presence bus a session's terminal silences its later terminals and announces. */
  predicate Fenced(bus: bool, terminals: set<string>, w: Wire) {
    bus && (IsTerminal(w) || IsAnnounce(w)) && w.sessionId in terminals
  }

  /** The uniqueness constraint (gen, msg_id, part); SQL NULLs are distinct from everything. */
  predicate SameCoordinate(r: Row, gen: nat, w: Wire) {
    r.gen == gen && w.msgId.Some? && w.part.Some? && r.frame.msgId == w.msgId && r.frame.part == w.part
  }

  predicate Occupied(log: seq<Row>, gen: nat, w: Wire) {
    exists r :: r in log && SameCoordinate(r, gen, w)
  }

  datatype Outcome =
    | Suppressed                       // the fence holds: success without an effect
    | Appended(db: Db)                 // the frame is stored
    | Replayed(db: Db)                 // the very frame is already stored
    | Collided                         // another frame has the coordinate: rolled back

  /** The incarnation a publish lands in: the live one, or the next one when the channel is closed. */
  function TargetGen(db: Db): nat {
    if db.closed then db.gen + 1 else db.gen
  }

  /** The write transaction of one publish. */
  function PublishTx(db: Db, bus: bool, w: Wire): Outcome {
    if Fenced(bus, db.terminals, w) then Suppressed
    else
      var gen := TargetGen(db);
      var fence := if bus && IsTerminal(w) then {w.sessionId} else {};
      if !Occupied(db.log, gen, w) then
        Appended(Db(gen, false, db.log + [Row(db.lastId + 1, gen, w)], db.lastId + 1, db.terminals + fence))
      else if exists r :: r in db.log && SameCoordinate(r, gen, w) && r.frame == w then
        Replayed(Db(gen, false, db.log, db.lastId, db.terminals + fence))
      else Collided
  }

  function After(db: Db, o: Outcome): Db {
    match o
    case Suppressed => db
    case Appended(db') => db'
    case Replayed(db') => db'
    case Collided => db
  }

  function Publish(db: Db, bus: bool, w: Wire): Db { After(db, PublishTx(db, bus, w)) }

  function Close(db: Db): Db { db.(closed := true) }

  function TerminalSessions(log: seq<Row>): set<string> {
    set r | r in log && IsTerminal(r.frame) :: r.frame.sessionId
  }

  /** Opening a database whose projection table is missing rebuilds it from the stored terminals. */
  function Backfill(db: Db): Db { db.(terminals := TerminalSessions(db.log)) }

  // ---------------------------------------------------------------------------------------------
  // The object
  // ---------------------------------------------------------------------------------------------

  class SqliteChannel {
    const bus: bool
    var gen: nat
    var closed: bool
    var log: seq<Row>
    var lastId: nat
    var terminals: set<string>

    ghost function Value(): Db
      reads this
    {
      Db(gen, closed, log, lastId, terminals)
    }

    constructor (bus: bool)
      ensures Value() == FRESH && this.bus == bus
    {
      this.bus := bus;
      gen, closed, log, lastId, terminals := 0, false, [], 0, {};
    }

    /**
     * Append a frame in one transaction; a collision rolls everything back, the reopening included.
     * `created` is whether this call began an incarnation.
     */
    method PublishFrame(w: Wire, establishedNow: bool) returns (r: Result<bool, ()>)
      modifies this
      ensures Value() == Publish(old(Value()), bus, w)
      ensures r.Err? <==> PublishTx(old(Value()), bus, w).Collided?
      ensures r.Ok? ==> (r.value <==> !PublishTx(old(Value()), bus, w).Suppressed?
                                       && (old(closed) || establishedNow))
    {
      var terminal := bus && IsTerminal(w);
      if (terminal || (bus && IsAnnounce(w))) && w.sessionId in terminals {
        return Ok(false);
      }
      var savedGen, savedClosed := gen, closed;
      var created := establishedNow;
      if closed {
        gen, closed, created := gen + 1, false, true;
      }
      if !Occupied(log, gen, w) {
        lastId := lastId + 1;
        log := log + [Row(lastId, gen, w)];
      } else if !exists row :: row in log && SameCoordinate(row, gen, w) && row.frame == w {
        gen, closed := savedGen, savedClosed;
        return Err(());
      }
      if terminal {
        terminals := terminals + {w.sessionId};
      }
      return Ok(created);
    }

    method CloseChannel()
      modifies this
      ensures Value() == Close(old(Value()))
    {
      closed := true;
    }

    /** The highest number of the live incarnation, or None when the channel is closed or has none. */
    method MaxSeq() returns (max: Option<nat>)
      ensures closed ==> max.None?
      ensures !closed ==>
        (max.None? <==> forall r :: r in log && r.gen == gen ==> r.frame.number.None?)
      ensures max.Some? ==>
        && (exists r :: r in log && r.gen == gen && r.frame.number == max)
        && (forall r :: r in log && r.gen == gen && r.frame.number.Some? ==> r.frame.number.value <= max.value)
    {
      max := None;
      if closed {
        return;
      }
      for i := 0 to |log|
        invariant max.None? <==> forall r :: r in log[..i] && r.gen == gen ==> r.frame.number.None?
        invariant max.Some? ==>
          && (exists r :: r in log[..i] && r.gen == gen && r.frame.number == max)
          && (forall r :: r in log[..i] && r.gen == gen && r.frame.number.Some? ==> r.frame.number.value <= max.value)
      {
        var number := log[i].frame.number;
        assert log[..i + 1] == log[..i] + [log[i]];
        if log[i].gen == gen && number.Some? && (max.None? || max.value < number.value) {
          max := number;
        }
      }
      assert log[..|log|] == log;
    }
  }

  // ---------------------------------------------------------------------------------------------
  // Histories
  // ---------------------------------------------------------------------------------------------

  datatype Event = Put(w: Wire) | Shut | Reproject

  function Apply(db: Db, bus: bool, e: Event): Db {
    match e
    case Put(w) => Publish(db, bus, w)
    case Shut => Close(db)
    case Reproject => Backfill(db)
  }

  function Run(db: Db, bus: bool, events: seq<Event>): Db
    decreases events
  {
    if events == [] then db else Run(Apply(db, bus, events[0]), bus, events[1..])
  }

  /** Ids ascend and stay below the counter; incarnations ascend and stay below the current one. */
  ghost predicate Ordered(db: Db) {
    && (forall i, j :: 0 <= i < j < |db.log| ==> db.log[i].id < db.log[j].id && db.log[i].gen <= db.log[j].gen)
    && (forall i :: 0 <= i < |db.log| ==> 0 < db.log[i].id <= db.lastId && db.log[i].gen <= db.gen)
  }

  /** Each non-null coordinate of an incarnation holds one row. */
  ghost predicate CoordinatesUnique(log: seq<Row>) {
    forall i, j :: 0 <= i < j < |log| ==> !SameCoordinate(log[i], log[j].gen, log[j].frame)
  }

  ghost predicate Sound(db: Db) {
    Ordered(db) && CoordinatesUnique(db.log)
  }

  lemma AppendKeepsSound(db: Db, w: Wire, gen: nat, terminals: set<string>)
    requires Sound(db) && !Occupied(db.log, gen, w) && db.gen <= gen
    ensures Sound(Db(gen, false, db.log + [Row(db.lastId + 1, gen, w)], db.lastId + 1, terminals))
  {
    assert forall i :: 0 <= i < |db.log| ==> db.log[i] in db.log;
  }

  lemma ReopenKeepsSound(db: Db, gen: nat, closed: bool, terminals: set<string>)
    requires Sound(db) && db.gen <= gen
    ensures Sound(Db(gen, closed, db.log, db.lastId, terminals))
  {
  }

  lemma ApplyGrows(db: Db, bus: bool, e: Event)
    ensures db.log <= Apply(db, bus, e).log
    ensures db.gen <= Apply(db, bus, e).gen
    ensures db.lastId <= Apply(db, bus, e).lastId
  {
  }

  lemma ApplyKeepsSound(db: Db, bus: bool, e: Event)
    requires Sound(db)
    ensures Sound(Apply(db, bus, e))
  {
    var db' := Apply(db, bus, e);
    if e.Put? && PublishTx(db, bus, e.w).Appended? {
      AppendKeepsSound(db, e.w, TargetGen(db), db'.terminals);
    } else {
      ReopenKeepsSound(db, db'.gen, db'.closed, db'.terminals);
    }
  }

  /**
   * Over every run, across closes, reopenings and reprojections: incarnations only advance, frames are
   * only appended, and each non-null (gen, msg_id, part) holds one frame.
   */
  lemma {:induction false} LogIsAppendOnly(db: Db, bus: bool, events: seq<Event>)
    requires Sound(db)
    ensures Sound(Run(db, bus, events))
    ensures db.log <= Run(db, bus, events).log
    ensures db.gen <= Run(db, bus, events).gen
    decreases events
  {
    if events != [] {
      ApplyKeepsSound(db, bus, events[0]);
      ApplyGrows(db, bus, events[0]);
      LogIsAppendOnly(Apply(db, bus, events[0]), bus, events[1..]);
    }
  }

  /**
   * Republishing at an occupied coordinate of a live channel never changes anything; it succeeds
   * exactly when the bytes are the stored ones or the fence makes it a no-op.
   */
  lemma ReplayLeavesChannelUnchanged(db: Db, bus: bool, w: Wire, r: Row)
    requires Sound(db) && !db.closed && r in db.log && SameCoordinate(r, db.gen, w)
    requires bus ==> db.terminals == TerminalSessions(db.log)
    ensures Publish(db, bus, w) == db
    ensures PublishTx(db, bus, w).Collided? <==> r.frame != w && !Fenced(bus, db.terminals, w)
  {
    if s :| s in db.log && SameCoordinate(s, db.gen, w) && s.frame == w {
      var i, j :| 0 <= i < |db.log| && 0 <= j < |db.log| && db.log[i] == r && db.log[j] == s;
      assert i == j;
      if bus && IsTerminal(w) {
        assert w.sessionId in TerminalSessions(db.log);
      }
    }
  }

  /** A publish to a closed channel begins the next incarnation, which nothing stored occupies. */
  lemma ReopeningAlwaysAppends(db: Db, bus: bool, w: Wire)
    requires Sound(db) && db.closed && !Fenced(bus, db.terminals, w)
    ensures PublishTx(db, bus, w).Appended?
    ensures Publish(db, bus, w).gen == db.gen + 1 && !Publish(db, bus, w).closed
    ensures forall r :: r in Publish(db, bus, w).log && r.gen == db.gen + 1 ==> r.frame == w
  {
    forall r | r in db.log ensures r.gen <= db.gen {
      var i :| 0 <= i < |db.log| && db.log[i] == r;
    }
  }

  /** What one event appends. */
  function Added(db: Db, bus: bool, e: Event): seq<Row> {
    if e.Put? && PublishTx(db, bus, e.w).Appended? then [Row(db.lastId + 1, TargetGen(db), e.w)] else []
  }

  lemma ApplyAdds(db: Db, bus: bool, e: Event)
    ensures Apply(db, bus, e).log == db.log + Added(db, bus, e)
    ensures e.Put? && Added(db, bus, e) != [] ==> Apply(db, bus, e).gen == TargetGen(db)
  {
  }

  lemma ApplyFreezesPast(db: Db, bus: bool, e: Event, gen: nat)
    requires gen < db.gen || (gen == db.gen && db.closed)
    ensures OfGen(Apply(db, bus, e).log, gen) == OfGen(db.log, gen)
    ensures gen < Apply(db, bus, e).gen || (gen == Apply(db, bus, e).gen && Apply(db, bus, e).closed)
  {
    ApplyAdds(db, bus, e);
    if Added(db, bus, e) != [] {
      OfGenSnoc(db.log, Added(db, bus, e)[0], gen);
    }
  }

  /** An incarnation that is closed, or has been succeeded, never grows again. */
  lemma {:induction false} PastIncarnationsAreFrozen(db: Db, bus: bool, events: seq<Event>, gen: nat)
    requires gen < db.gen || (gen == db.gen && db.closed)
    ensures OfGen(Run(db, bus, events).log, gen) == OfGen(db.log, gen)
    decreases events
  {
    if events != [] {
      ApplyFreezesPast(db, bus, events[0], gen);
      PastIncarnationsAreFrozen(Apply(db, bus, events[0]), bus, events[1..], gen);
    }
  }

  /** The rows of one incarnation, in id order. */
  function OfGen(log: seq<Row>, gen: nat): seq<Row> {
    if log == [] then []
    else OfGen(log[..|log| - 1], gen) + (if log[|log| - 1].gen == gen then [log[|log| - 1]] else [])
  }

  lemma OfGenSnoc(log: seq<Row>, r: Row, gen: nat)
    ensures OfGen(log + [r], gen) == OfGen(log, gen) + (if r.gen == gen then [r] else [])
  {
    assert (log + [r])[..|log|] == log;
  }

  // ---------------------------------------------------------------------------------------------
  // The presence fence
  // ---------------------------------------------------------------------------------------------

  /** From index `from` on, no announce and no second terminal of a session follows its terminal. */
  ghost predicate FencedFrom(log: seq<Row>, from: nat) {
    forall i, j :: 0 <= i < j < |log| && from <= j && IsTerminal(log[i].frame)
                   && (IsTerminal(log[j].frame) || IsAnnounce(log[j].frame)) ==>
                   log[i].frame.sessionId != log[j].frame.sessionId
  }

  /**
   * The fence over whole runs of a bus database, from any stored log, legacy ones included, once the
   * projection has been rebuilt: the table is exactly the sessions with a stored terminal, and nothing
   * appended afterwards announces or ends a session that had ended. From an empty log this says that
   * each session has at most one terminal frame, across all incarnations, and no announce after it.
   */
  lemma {:induction false} FenceHoldsOverRuns(db: Db, events: seq<Event>, from: nat)
    requires Sound(db) && db.terminals == TerminalSessions(db.log) && FencedFrom(db.log, from)
    ensures Run(db, true, events).terminals == TerminalSessions(Run(db, true, events).log)
    ensures FencedFrom(Run(db, true, events).log, from)
    decreases events
  {
    if events != [] {
      ApplyKeepsSound(db, true, events[0]);
      ApplyKeepsFence(db, events[0], from);
      FenceHoldsOverRuns(Apply(db, true, events[0]), events[1..], from);
    }
  }

  lemma ApplyKeepsFence(db: Db, e: Event, from: nat)
    requires Sound(db) && db.terminals == TerminalSessions(db.log) && FencedFrom(db.log, from)
    ensures Apply(db, true, e).terminals == TerminalSessions(Apply(db, true, e).log)
    ensures FencedFrom(Apply(db, true, e).log, from)
  {
    if e.Put? && !Fenced(true, db.terminals, e.w) {
      var w, gen := e.w, TargetGen(db);
      var r := Row(db.lastId + 1, gen, w);
      if !Occupied(db.log, gen, w) {
        assert TerminalSessions(db.log + [r]) ==
               TerminalSessions(db.log) + (if IsTerminal(w) then {w.sessionId} else {});
        forall i | 0 <= i < |db.log| && IsTerminal(db.log[i].frame)
          ensures db.log[i].frame.sessionId in TerminalSessions(db.log)
        {
          assert db.log[i] in db.log;
        }
      } else if IsTerminal(w) {
        assert forall s :: s in db.log && s.frame == w ==> w.sessionId in TerminalSessions(db.log);
      }
    }
  }

  lemma FenceHoldsFromLegacyLog(db: Db, events: seq<Event>)
    requires Sound(db)
    ensures var after := Run(Backfill(db), true, events);
            && after.terminals == TerminalSessions(after.log)
            && FencedFrom(after.log, |db.log|)
  {
    FenceHoldsOverRuns(Backfill(db), events, |db.log|);
  }
}
