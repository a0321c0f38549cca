/**
 * Create-once provisioning of one channel database: catalogue, physical store, witness row and first
 * frame, with concurrent opens, crashes at every point and loss of the store
 * (apps/web/lib/broker/sqlite-multi.ts, apps/web/lib/broker/session-index.ts).
 */
module CreateOnce {
  import opened Common

  /** User tables of the store: none yet, some but not the core ones, or channel and frames. */
  datatype Tables = Bare | Partial | Core

  datatype Store = Store(tables: Tables, witnessed: bool, frames: nat)

  /**
   * One open client. `known` is whether the catalogue held the token when its open asked, or since
   * its own catalogue write; `create` is whether the open may provision. Between any two stages the
   * client awaits, and anybody else may act.
   */
  datatype Stage =
    | Probed       // the catalogue was asked
    | Ready        // the client is open
    | Checked      // the tables were listed and found acceptable, the DDL has not run
    | Migrated     // the DDL has run
    | Witnessed    // the channel row was seen or written
    | Catalogued   // the catalogue row is written, the client does not know yet
    | Established
  datatype Client = Client(stage: Stage, known: bool, create: bool)

  /** Durable facts, and the clients of every process. */
  datatype World = World(catalog: bool, store: Option<Store>, clients: map<nat, Client>)

  const NEW := World(false, None, map[])

  datatype Action =
    | Probe(id: nat, create: bool)   // index.has
    | Open(id: nat)                  // locator.exists, ensure, newClient
    | Check(id: nat)                 // SELECT name FROM sqlite_master
    | Ddl(id: nat)                   // the CREATE IF NOT EXISTS batch
    | Witness(id: nat, create: bool) // SELECT, or INSERT of, the channel row
    | Catalogue(id: nat)             // index.add
    | Mark(id: nat)                  // markCatalogKnown
    | AppendFrame(id: nat)           // the publish transaction
    | Drop(id: nat)                  // eviction, error, or one client of a crashing process
    | Lose(left: Option<Tables>)     // the store disappears, or is replaced by one without the core

  function Stored(w: World): Tables {
    if w.store.Some? then w.store.value.tables else Bare
  }

  predicate HasCore(w: World) { w.store.Some? && w.store.value.tables.Core? }

  predicate HasWitness(w: World) { HasCore(w) && w.store.value.witnessed }

  /** One client serves every later call as well, so the channel row is looked for again at each stage. */
  predicate MayWitness(s: Stage) { s.Migrated? || s.Witnessed? || s.Catalogued? }

  /** A statement of an open client whose database file is gone sees, and leaves, a fresh empty file. */
  function Found(w: World): Store { if w.store.Some? then w.store.value else Store(Bare, false, 0) }

  function Touched(w: World): World { w.(store := Some(Found(w))) }

  predicate Enabled(w: World, a: Action) {
    match a
    case Probe(id, _) => id !in w.clients
    case Open(id) => id in w.clients && w.clients[id].stage.Probed?
    case Check(id) => id in w.clients && w.clients[id].stage.Ready?
    case Ddl(id) => id in w.clients && w.clients[id].stage.Checked?
    case Witness(id, _) => id in w.clients && MayWitness(w.clients[id].stage)
    case Catalogue(id) => id in w.clients && w.clients[id].stage.Witnessed?
    case Mark(id) => id in w.clients && w.clients[id].stage.Catalogued?
    case AppendFrame(id) => id in w.clients && w.clients[id].stage.Established?
    case Drop(id) => id in w.clients
    case Lose(left) => w.store.Some? && left != Some(Core)
  }

  function Without(w: World, id: nat): World { w.(clients := w.clients - {id}) }

  function With(w: World, id: nat, c: Client): World { w.(clients := w.clients[id := c]) }

  function Step(w: World, a: Action): World
    requires Enabled(w, a)
  {
    match a
    case Probe(id, create) => With(w, id, Client(Probed, w.catalog, create))
    case Open(id) =>
      var c := w.clients[id];
      if w.store.Some? then With(w, id, c.(stage := Ready))
      else if c.known || !c.create then Without(w, id)
      else With(w.(store := Some(Store(Bare, false, 0))), id, c.(stage := Ready))
    case Check(id) =>
      var c, tables := w.clients[id], Found(w).tables;
      if (c.known && !tables.Core?) || (!c.known && tables.Partial?) then Without(Touched(w), id)
      else With(Touched(w), id, c.(stage := Checked))
    case Ddl(id) =>
      With(w.(store := Some(Found(w).(tables := Core))), id, w.clients[id].(stage := Migrated))
    case Witness(id, create) =>
      var c := w.clients[id];
      if !HasCore(w) then Without(Touched(w), id)
      else if w.store.value.witnessed then With(w, id, c.(stage := if c.stage.Migrated? then Witnessed else c.stage))
      else if c.known || !create then w
      else With(w.(store := Some(w.store.value.(witnessed := true))), id, c.(stage := Witnessed))
    case Catalogue(id) => With(w.(catalog := true), id, w.clients[id].(stage := Catalogued))
    case Mark(id) => With(w, id, w.clients[id].(stage := Established, known := true))
    case AppendFrame(id) =>
      if !HasCore(w) then Without(Touched(w), id)
      else if !w.store.value.witnessed then w
      else w.(store := Some(w.store.value.(frames := w.store.value.frames + 1)))
    case Drop(id) => Without(w, id)
    case Lose(left) => w.(store := if left.None? then None else Some(Store(left.value, false, 0)))
  }

  predicate Runs(w: World, actions: seq<Action>)
    decreases actions
  {
    actions == [] || (Enabled(w, actions[0]) && Runs(Step(w, actions[0]), actions[1..]))
  }

  function Run(w: World, actions: seq<Action>): World
    requires Runs(w, actions)
    decreases actions
  {
    if actions == [] then w else Run(Step(w, actions[0]), actions[1..])
  }

  // ---------------------------------------------------------------------------------------------
  // Every reachable state
  // ---------------------------------------------------------------------------------------------

  /** A stored frame implies both witnesses; nobody takes the token for known before the catalogue does. */
  ghost predicate Invariant(w: World) {
    && (w.store.Some? && w.store.value.frames > 0 ==> HasWitness(w) && w.catalog)
    && (w.store.Some? && w.store.value.witnessed ==> HasCore(w))
    && (forall id :: id in w.clients && w.clients[id].known ==> w.catalog)
    && (forall id :: id in w.clients && w.clients[id].stage.Catalogued? ==> w.catalog)
    && (forall id :: id in w.clients && w.clients[id].stage.Established? ==> w.clients[id].known)
  }

  lemma StepKeepsInvariant(w: World, a: Action)
    requires Invariant(w) && Enabled(w, a)
    ensures Invariant(Step(w, a))
  {
  }

  lemma {:induction false} RunKeepsInvariant(w: World, actions: seq<Action>)
    requires Invariant(w) && Runs(w, actions)
    ensures Invariant(Run(w, actions))
    decreases actions
  {
    if actions != [] {
      StepKeepsInvariant(w, actions[0]);
      RunKeepsInvariant(Step(w, actions[0]), actions[1..]);
    }
  }

  /** At every crash point of every run from scratch, a stored frame implies the witness row and the catalogue row. */
  lemma FrameImpliesBothWitnesses(actions: seq<Action>)
    requires Runs(NEW, actions)
    ensures var w := Run(NEW, actions);
            w.store.Some? && w.store.value.frames > 0 ==> HasWitness(w) && w.catalog
  {
    RunKeepsInvariant(NEW, actions);
  }

  // ---------------------------------------------------------------------------------------------
  // Loss is permanent
  // ---------------------------------------------------------------------------------------------

  /** The token was catalogued and its core tables are gone. */
  predicate Lost(w: World) { w.catalog && !HasCore(w) }

  /** An open asked the catalogue before the token was in it, and has not yet listed the tables. */
  predicate Stale(c: Client) { !c.known && (c.stage.Probed? || c.stage.Ready?) }

  /**
   * The client is about to run the DDL, on whatever is there by then and whatever it knows; or it is
   * stale and can still come to a store: it holds or may create one, or one is there, or some open client
   * may leave an empty one behind.
   */
  predicate Threatens(w: World, id: nat) {
    && id in w.clients
    && (w.clients[id].stage.Checked?
        || (Stale(w.clients[id])
            && (w.clients[id].stage.Ready? || w.clients[id].create || w.store.Some?
                || exists other :: other in w.clients && !w.clients[other].stage.Probed?)))
  }

  predicate Threatened(w: World) {
    exists id :: id in w.clients && Threatens(w, id)
  }

  lemma StepKeepsLost(w: World, a: Action)
    requires Invariant(w) && Lost(w) && !Threatened(w) && Enabled(w, a)
    ensures Lost(Step(w, a)) && !Threatened(Step(w, a))
  {
    var w' := Step(w, a);
    forall id | id in w'.clients ensures !Threatens(w', id) {
      if id in w.clients {
        assert !Threatens(w, id);
      }
    }
  }

  lemma {:induction false} LossIsPermanent(w: World, actions: seq<Action>)
    requires Invariant(w) && Lost(w) && !Threatened(w) && Runs(w, actions)
    ensures Lost(Run(w, actions))
    decreases actions
  {
    if actions != [] {
      StepKeepsInvariant(w, actions[0]);
      StepKeepsLost(w, actions[0]);
      LossIsPermanent(Step(w, actions[0]), actions[1..]);
    }
  }

  /** Some continuation comes to a world with `goal`. */
  ghost predicate Reaches(w: World, goal: World -> bool) {
    exists actions :: Runs(w, actions) && goal(Run(w, actions))
  }

  /** The token has a provisioned store again. */
  ghost predicate CanReprovision(w: World) { Reaches(w, HasCore) }

  predicate HasFrame(w: World) { w.store.Some? && w.store.value.frames > 0 }

  lemma RunCons(w: World, a: Action, rest: seq<Action>)
    requires Enabled(w, a) && Runs(Step(w, a), rest)
    ensures Runs(w, [a] + rest) && Run(w, [a] + rest) == Run(Step(w, a), rest)
  {
    assert ([a] + rest)[1..] == rest;
  }

  lemma ReachesBefore(w: World, a: Action, goal: World -> bool)
    requires Enabled(w, a) && Reaches(Step(w, a), goal)
    ensures Reaches(w, goal)
  {
    var rest :| Runs(Step(w, a), rest) && goal(Run(Step(w, a), rest));
    RunCons(w, a, rest);
  }

  lemma ReachesNow(w: World, goal: World -> bool)
    requires goal(w)
    ensures Reaches(w, goal)
  {
    assert Runs(w, []) && Run(w, []) == w;
  }

  // What a client that asked before the token was catalogued can bring about

  lemma CataloguedAppends(w: World, id: nat)
    requires HasWitness(w) && id in w.clients && w.clients[id].stage.Catalogued?
    ensures Reaches(w, HasFrame)
  {
    var marked := Step(w, Mark(id));
    ReachesNow(Step(marked, AppendFrame(id)), HasFrame);
    ReachesBefore(marked, AppendFrame(id), HasFrame);
    ReachesBefore(w, Mark(id), HasFrame);
  }

  lemma WitnessedAppends(w: World, id: nat)
    requires HasWitness(w) && id in w.clients && (w.clients[id].stage.Witnessed? || w.clients[id].stage.Catalogued?)
    ensures Reaches(w, HasFrame)
  {
    if w.clients[id].stage.Witnessed? {
      CataloguedAppends(Step(w, Catalogue(id)), id);
      ReachesBefore(w, Catalogue(id), HasFrame);
    } else {
      CataloguedAppends(w, id);
    }
  }

  lemma MigratedAppends(w: World, id: nat)
    requires HasCore(w) && id in w.clients && !w.clients[id].known && MayWitness(w.clients[id].stage)
    ensures Reaches(w, HasFrame)
  {
    WitnessedAppends(Step(w, Witness(id, true)), id);
    ReachesBefore(w, Witness(id, true), HasFrame);
  }

  lemma CheckedAppends(w: World, id: nat)
    requires id in w.clients && !w.clients[id].known && w.clients[id].stage.Checked?
    ensures Reaches(w, HasFrame)
  {
    MigratedAppends(Step(w, Ddl(id)), id);
    ReachesBefore(w, Ddl(id), HasFrame);
  }

  lemma ReadyAppends(w: World, id: nat)
    requires id in w.clients && !w.clients[id].known && w.clients[id].stage.Ready?
    ensures Reaches(w, HasFrame)
  {
    if HasCore(w) || w.store.None? {
      CheckedAppends(Step(w, Check(id)), id);
      ReachesBefore(w, Check(id), HasFrame);
    } else {
      var lost := Step(w, Lose(None));
      CheckedAppends(Step(lost, Check(id)), id);
      ReachesBefore(lost, Check(id), HasFrame);
      ReachesBefore(w, Lose(None), HasFrame);
    }
  }

  lemma ProbedAppends(w: World, id: nat)
    requires id in w.clients && !w.clients[id].known && w.clients[id].stage.Probed?
    requires w.clients[id].create || w.store.Some?
    ensures Reaches(w, HasFrame)
  {
    ReadyAppends(Step(w, Open(id)), id);
    ReachesBefore(w, Open(id), HasFrame);
  }

  /** Any statement of an open client leaves at least an empty file. */
  lemma SomebodyTouches(w: World, other: nat) returns (a: Action)
    requires other in w.clients && !w.clients[other].stage.Probed? && !w.clients[other].stage.Checked?
    requires w.store.None?
    ensures Enabled(w, a) && Step(w, a).store.Some?
    ensures forall id :: id in w.clients && id != other ==> id in Step(w, a).clients && Step(w, a).clients[id] == w.clients[id]
  {
    match w.clients[other].stage
    case Ready => a := Check(other);
    case Established => a := AppendFrame(other);
    case _ => a := Witness(other, false);
  }

  /** A stale client that threatens goes all the way by itself, once there is a store. */
  lemma StaleAppends(w: World, id: nat)
    requires Threatens(w, id) && Stale(w.clients[id])
    ensures Reaches(w, HasFrame)
  {
    if w.clients[id].stage.Ready? {
      ReadyAppends(w, id);
    } else if w.clients[id].create || w.store.Some? {
      ProbedAppends(w, id);
    } else {
      var other :| other in w.clients && !w.clients[other].stage.Probed?;
      if w.clients[other].stage.Checked? {
        ProbedAppends(Step(w, Ddl(other)), id);
        ReachesBefore(w, Ddl(other), HasFrame);
      } else {
        var a := SomebodyTouches(w, other);
        ProbedAppends(Step(w, a), id);
        ReachesBefore(w, a, HasFrame);
      }
    }
  }

  /** With a provisioned store, any client that has not learnt of the catalogue row goes all the way. */
  lemma UnknownAppends(w: World, id: nat)
    requires Invariant(w) && HasCore(w) && id in w.clients && !w.clients[id].known
    ensures Reaches(w, HasFrame)
  {
    match w.clients[id].stage
    case Probed => ProbedAppends(w, id);
    case Ready => ReadyAppends(w, id);
    case Checked => CheckedAppends(w, id);
    case _ => MigratedAppends(w, id);
  }

  lemma {:induction false} FrameMeansWitness(w: World, actions: seq<Action>)
    requires Invariant(w) && Runs(w, actions) && HasFrame(Run(w, actions))
    ensures HasWitness(Run(w, actions)) && HasCore(Run(w, actions))
  {
    RunKeepsInvariant(w, actions);
  }

  lemma FrameReachesAll(w: World)
    requires Invariant(w) && Reaches(w, HasFrame)
    ensures Reaches(w, HasWitness) && Reaches(w, HasCore)
  {
    var actions :| Runs(w, actions) && HasFrame(Run(w, actions));
    FrameMeansWitness(w, actions);
  }

  lemma WitnessReachesCore(w: World)
    requires Reaches(w, HasWitness)
    ensures Reaches(w, HasCore)
  {
    var actions :| Runs(w, actions) && HasWitness(Run(w, actions));
    assert HasCore(Run(w, actions));
  }

  lemma CheckedReprovisions(w: World, id: nat)
    requires id in w.clients && w.clients[id].stage.Checked?
    ensures CanReprovision(w)
  {
    ReachesNow(Step(w, Ddl(id)), HasCore);
    ReachesBefore(w, Ddl(id), HasCore);
  }

  /**
   * Once a catalogued token has lost its store, no run of opens, publishes, subscribes, crashes and
   * restarts ever provisions it again, except exactly when some client is between listing the tables and
   * its DDL, or an open that asked the catalogue before the token was in it has not yet listed the tables
   * and can come to a store.
   */
  lemma LossIsPermanentIffNoStaleOpen(w: World)
    requires Invariant(w) && Lost(w)
    ensures CanReprovision(w) <==> Threatened(w)
  {
    if Threatened(w) {
      var id :| id in w.clients && Threatens(w, id);
      if w.clients[id].stage.Checked? {
        CheckedReprovisions(w, id);
      } else {
        StaleAppends(w, id);
        FrameReachesAll(w);
      }
    } else if CanReprovision(w) {
      var actions :| Runs(w, actions) && HasCore(Run(w, actions));
      LossIsPermanent(w, actions);
      assert false;
    }
  }

  /** Some client has not learnt of the catalogue row. */
  predicate SomebodyUnknowing(w: World) { exists id :: id in w.clients && !w.clients[id].known }

  predicate Unwitnessed(w: World) { w.store.Some? ==> !w.store.value.witnessed }

  lemma {:induction false} KnowingNeverWitness(w: World, actions: seq<Action>)
    requires Runs(w, actions) && w.catalog && Unwitnessed(w) && !SomebodyUnknowing(w)
    ensures Unwitnessed(Run(w, actions))
    decreases actions
  {
    if actions != [] {
      StepKeepsUnwitnessed(w, actions[0]);
      KnowingNeverWitness(Step(w, actions[0]), actions[1..]);
    }
  }

  lemma StepKeepsUnwitnessed(w: World, a: Action)
    requires Enabled(w, a) && w.catalog && Unwitnessed(w) && !SomebodyUnknowing(w)
    ensures Step(w, a).catalog && Unwitnessed(Step(w, a)) && !SomebodyUnknowing(Step(w, a))
  {
    assert forall id :: id in w.clients ==> w.clients[id].known;
    forall id | id in Step(w, a).clients ensures Step(w, a).clients[id].known {
    }
  }

  /**
   * When a lost token can be witnessed, and appended to, again: exactly when it can be provisioned again
   * and some client has not learnt of the catalogue row. Provisioned by clients that know alone, it stays
   * without a witness and without a frame.
   */
  lemma LostTokenRestartsIff(w: World)
    requires Invariant(w) && Lost(w)
    ensures Reaches(w, HasWitness) <==> Threatened(w) && SomebodyUnknowing(w)
    ensures Reaches(w, HasFrame) <==> Threatened(w) && SomebodyUnknowing(w)
  {
    LossIsPermanentIffNoStaleOpen(w);
    if Threatened(w) && SomebodyUnknowing(w) {
      ThreatAndUnknowingAppend(w);
    }
    if Reaches(w, HasFrame) {
      FrameReachesAll(w);
    }
    if Reaches(w, HasWitness) {
      WitnessReachesCore(w);
      var actions :| Runs(w, actions) && HasWitness(Run(w, actions));
      if !SomebodyUnknowing(w) {
        KnowingNeverWitness(w, actions);
      }
    }
  }

  lemma ThreatAndUnknowingAppend(w: World)
    requires Invariant(w) && Threatened(w) && SomebodyUnknowing(w)
    ensures Reaches(w, HasFrame)
  {
    var id :| id in w.clients && Threatens(w, id);
    if w.clients[id].stage.Checked? {
      var other :| other in w.clients && !w.clients[other].known;
      StepKeepsInvariant(w, Ddl(id));
      UnknownAppends(Step(w, Ddl(id)), other);
      ReachesBefore(w, Ddl(id), HasFrame);
    } else {
      StaleAppends(w, id);
    }
  }

  /** After a restart nothing is stale: a lost token stays unprovisioned, unwitnessed and empty for ever. */
  lemma LossSurvivesRestart(w: World, actions: seq<Action>)
    requires Invariant(w) && Lost(w) && w.clients == map[] && Runs(w, actions)
    ensures var w' := Run(w, actions);
            !HasCore(w') && (w'.store.Some? ==> !w'.store.value.witnessed && w'.store.value.frames == 0)
  {
    LossIsPermanent(w, actions);
    RunKeepsInvariant(w, actions);
  }

  // ---------------------------------------------------------------------------------------------
  // Crash safety the other way: an unfinished creation can always be finished
  // ---------------------------------------------------------------------------------------------

  /** The steps of one publishing open. */
  function PublishOnce(id: nat): seq<Action> {
    [Probe(id, true), Open(id), Check(id), Ddl(id), Witness(id, true), Catalogue(id), Mark(id), AppendFrame(id)]
  }

  /**
   * Wherever a creation crashed, short of a loss, a fresh open completes it and stores its frame: the
   * store is absent, or bare, or has its core tables; and if catalogued, it has its witness row.
   */
  lemma RetryCompletesCreation(w: World, id: nat)
    requires Invariant(w) && id !in w.clients
    requires !Stored(w).Partial?
    requires w.catalog ==> HasWitness(w)
    ensures Runs(w, PublishOnce(id))
    ensures var w' := Run(w, PublishOnce(id));
            && HasWitness(w') && w'.catalog
            && w'.store.value.frames == (if w.store.Some? then w.store.value.frames else 0) + 1
  {
    var w1 := Step(w, Probe(id, true));
    var w2 := Step(w1, Open(id));
    var w3 := Step(w2, Check(id));
    var w4 := Step(w3, Ddl(id));
    var w5 := Step(w4, Witness(id, true));
    var w6 := Step(w5, Catalogue(id));
    var w7 := Step(w6, Mark(id));
    RunCons(w7, AppendFrame(id), []);
    RunCons(w6, Mark(id), [AppendFrame(id)] + []);
    RunCons(w5, Catalogue(id), [Mark(id), AppendFrame(id)]);
    RunCons(w4, Witness(id, true), [Catalogue(id), Mark(id), AppendFrame(id)]);
    RunCons(w3, Ddl(id), [Witness(id, true), Catalogue(id), Mark(id), AppendFrame(id)]);
    RunCons(w2, Check(id), [Ddl(id), Witness(id, true), Catalogue(id), Mark(id), AppendFrame(id)]);
    RunCons(w1, Open(id), [Check(id), Ddl(id), Witness(id, true), Catalogue(id), Mark(id), AppendFrame(id)]);
    RunCons(w, Probe(id, true),
            [Open(id), Check(id), Ddl(id), Witness(id, true), Catalogue(id), Mark(id), AppendFrame(id)]);
  }
}
