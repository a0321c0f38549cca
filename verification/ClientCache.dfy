/**
 * The ref-counted LRU of per-channel database clients (apps/web/lib/broker/sqlite-multi.ts). Every
 * method below is one stretch of `SessionDbCache` code between two awaits.
 */
module ClientCache {
  import opened Common

  datatype Phase = Migrating | Held | Released | Failed

  /** A borrowed client: `Migrating` while it awaits the schema, then `Held` until it is given back. */
  datatype Lease = Lease(client: nat, phase: Phase)

  datatype Entry = Entry(token: string, refs: int)

  /**
   * `order` is the entry map in insertion order, by client; `entries` are all entry objects ever made,
   * mapped or not; `opening` are the tokens whose create section is past its second lookup.
   */
  datatype Cache = Cache(
    max: nat,
    order: seq<nat>,
    entries: map<nat, Entry>,
    leases: map<nat, Lease>,
    closed: set<nat>,
    broken: set<nat>,
    opening: set<string>)

  predicate Mapped(c: Cache, token: string) {
    exists x :: x in c.order && x in c.entries && c.entries[x].token == token
  }

  /** Where the entry map holds `token`, or its size. */
  function PositionOf(order: seq<nat>, entries: map<nat, Entry>, token: string): (i: nat)
    ensures i <= |order| && (i < |order| ==> order[i] in entries && entries[order[i]].token == token)
    ensures forall k :: 0 <= k < i && order[k] in entries ==> entries[order[k]].token != token
  {
    if order == [] || (order[0] in entries && entries[order[0]].token == token) then 0
    else
      var n := PositionOf(order[1..], entries, token);
      assert forall k :: 0 < k < |order| ==> order[k] == order[1..][k - 1];
      n + 1
  }

  /** The entry map without the entry at `i`; nothing is removed past its end. */
  function Drop(order: seq<nat>, i: nat): seq<nat>
    requires i <= |order|
  {
    if i == |order| then order else order[..i] + order[i + 1..]
  }

  /** `Map.delete` of a token. */
  function Unmap(order: seq<nat>, entries: map<nat, Entry>, token: string): seq<nat> {
    Drop(order, PositionOf(order, entries, token))
  }

  predicate Idle(c: Cache, x: nat) { x in c.entries && c.entries[x].refs == 0 }

  predicate AllInUse(c: Cache) { forall x :: x in c.order ==> !Idle(c, x) }

  /** The position of the least recently used idle client, or the length. */
  function FirstIdle(c: Cache, from: nat): (i: nat)
    requires from <= |c.order|
    ensures from <= i <= |c.order| && (i < |c.order| ==> Idle(c, c.order[i]))
    ensures forall k :: from <= k < i ==> !Idle(c, c.order[k])
    decreases |c.order| - from
  {
    if from == |c.order| || Idle(c, c.order[from]) then from else FirstIdle(c, from + 1)
  }

  function CloseAt(c: Cache, i: nat): Cache
    requires i < |c.order|
  {
    c.(order := Drop(c.order, i), closed := c.closed + {c.order[i]})
  }

  /** The eviction pass. */
  function Evicted(c: Cache): Cache
    decreases |c.order|
  {
    var i := FirstIdle(c, 0);
    if |c.order| <= c.max || i == |c.order| then c else Evicted(CloseAt(c, i))
  }

  function AddRef(c: Cache, x: nat, delta: int): Cache
    requires x in c.entries
  {
    c.(entries := c.entries[x := c.entries[x].(refs := c.entries[x].refs + delta)])
  }

  /** Bump the entry to most recent, take a reference, and start waiting for its schema. */
  function Borrow(c: Cache, x: nat, lease: nat): Cache
    requires x in c.entries
  {
    var c' := AddRef(c, x, 1);
    c'.(order := Unmap(c.order, c.entries, c.entries[x].token) + [x], leases := c.leases[lease := Lease(x, Migrating)])
  }

  /** The entry map after `client`'s own entry, if its token still maps to it, is deleted. */
  function Unlist(c: Cache, client: nat): seq<nat>
    requires client in c.entries
  {
    if client in c.order then Unmap(c.order, c.entries, c.entries[client].token) else c.order
  }

  datatype Action =
    | Hit(client: nat, lease: nat)                    // the token is mapped to this client
    | Enter(token: string)                            // inside the create lock, still a miss
    | GiveUp(token: string)                           // no such channel, or opening failed and was closed
    | Opened(token: string, client: nat, lease: nat)  // the new client is cached and borrowed
    | SchemaReady(lease: nat)
    | SchemaFailed(lease: nat)
    | Release(lease: nat)
    | EvictClient(client: nat)                        // a connection error on this client

  predicate Enabled(c: Cache, a: Action) {
    match a
    case Hit(client, lease) => client in c.order && client in c.entries && lease !in c.leases
    case Enter(token) => !Mapped(c, token) && token !in c.opening
    case GiveUp(token) => token in c.opening
    case Opened(token, client, lease) => token in c.opening && client !in c.entries && lease !in c.leases
    case SchemaReady(lease) => lease in c.leases && c.leases[lease].phase == Migrating && c.leases[lease].client in c.entries
    case SchemaFailed(lease) => lease in c.leases && c.leases[lease].phase == Migrating && c.leases[lease].client in c.entries
    case Release(lease) =>
      lease in c.leases && c.leases[lease].phase in {Held, Released} && c.leases[lease].client in c.entries
    case EvictClient(client) => client in c.entries
  }

  function Step(c: Cache, a: Action): Cache
    requires Enabled(c, a)
  {
    match a
    case Hit(client, lease) => Borrow(c, client, lease)
    case Enter(token) => c.(opening := c.opening + {token})
    case GiveUp(token) => c.(opening := c.opening - {token})
    case Opened(token, client, lease) =>
      Borrow(c.(entries := c.entries[client := Entry(token, 0)], opening := c.opening - {token}), client, lease)
    case SchemaReady(lease) => Evicted(c.(leases := c.leases[lease := c.leases[lease].(phase := Held)]))
    case SchemaFailed(lease) => Abandon(c, lease)
    case Release(lease) => if c.leases[lease].phase == Released then c else Evicted(GiveBack(c, lease))
    case EvictClient(client) =>
      c.(order := Unlist(c, client), closed := c.closed + {client}, broken := c.broken + {client})
  }

  function GiveBack(c: Cache, lease: nat): Cache
    requires lease in c.leases && c.leases[lease].client in c.entries
  {
    AddRef(c, c.leases[lease].client, -1).(leases := c.leases[lease := c.leases[lease].(phase := Released)])
  }

  /** The schema could not be ensured: the last borrower of a mapped entry takes it down. */
  function Abandon(c: Cache, lease: nat): Cache
    requires lease in c.leases && c.leases[lease].client in c.entries
  {
    var x := c.leases[lease].client;
    var c' := AddRef(c, x, -1).(leases := c.leases[lease := Lease(x, Failed)]);
    if c'.entries[x].refs <= 0 && x in c.order then c'.(order := Unlist(c, x), closed := c.closed + {x}) else c'
  }

  // ---------------------------------------------------------------------------------------------
  // The object
  // ---------------------------------------------------------------------------------------------

  class SessionDbCache {
    const max: nat
    var order: seq<nat>
    var entries: map<nat, Entry>
    var leases: map<nat, Lease>
    var closed: set<nat>
    var opening: set<string>
    ghost var broken: set<nat>

    ghost function Value(): Cache
      reads this
    {
      Cache(max, order, entries, leases, closed, broken, opening)
    }

    constructor (max: nat)
      ensures Value() == Cache(max, [], map[], map[], {}, {}, {})
    {
      this.max := max;
      order, entries, leases, closed, opening, broken := [], map[], map[], {}, {}, {};
    }

    /** The loop that closes the oldest idle client until the cache fits or nobody is idle. */
    method Evict()
      modifies this`order, this`closed
      ensures Value() == Evicted(old(Value()))
      ensures |order| <= max || AllInUse(Value())
    {
      while |order| > max
        invariant Evicted(Value()) == old(Evicted(Value()))
        decreases |order|
      {
        var i := 0;
        while i < |order| && !(order[i] in entries && entries[order[i]].refs == 0)
          invariant 0 <= i <= |order|
          invariant FirstIdle(Value(), i) == FirstIdle(Value(), 0)
        {
          i := i + 1;
        }
        if i == |order| {
          return;
        }
        order, closed := Drop(order, i), closed + {order[i]};
      }
    }

    /** The synchronous head of `#lease`. */
    method Borrow(client: nat, lease: nat)
      requires Enabled(Value(), Hit(client, lease))
      modifies this`order, this`entries, this`leases
      ensures Value() == Step(old(Value()), Hit(client, lease))
    {
      var entry := entries[client];
      order := Unmap(order, entries, entry.token) + [client];
      entries := entries[client := entry.(refs := entry.refs + 1)];
      leases := leases[lease := Lease(client, Migrating)];
    }

    method FinishLease(lease: nat)
      requires Enabled(Value(), SchemaReady(lease))
      modifies this`order, this`closed, this`leases
      ensures Value() == Step(old(Value()), SchemaReady(lease))
    {
      leases := leases[lease := leases[lease].(phase := Held)];
      Evict();
    }

    method AbandonLease(lease: nat)
      requires Enabled(Value(), SchemaFailed(lease))
      modifies this`order, this`closed, this`leases, this`entries
      ensures Value() == Step(old(Value()), SchemaFailed(lease))
    {
      var client := leases[lease].client;
      var entry := entries[client];
      if entry.refs - 1 <= 0 && client in order {
        order, closed := Unmap(order, entries, entry.token), closed + {client};
      }
      entries := entries[client := entry.(refs := entry.refs - 1)];
      leases := leases[lease := Lease(client, Failed)];
    }

    method ReleaseLease(lease: nat)
      requires Enabled(Value(), Release(lease))
      modifies this`order, this`closed, this`leases, this`entries
      ensures Value() == Step(old(Value()), Release(lease))
    {
      if leases[lease].phase == Released {
        return;
      }
      var client := leases[lease].client;
      leases := leases[lease := leases[lease].(phase := Released)];
      entries := entries[client := entries[client].(refs := entries[client].refs - 1)];
      Evict();
    }

    method DropClient(client: nat)
      requires client in entries
      modifies this`order, this`closed, this`broken
      ensures Value() == Step(old(Value()), EvictClient(client))
    {
      if client in order {
        order := Unmap(order, entries, entries[client].token);
      }
      closed := closed + {client};
      broken := broken + {client};
    }
  }

  // ---------------------------------------------------------------------------------------------
  // The invariant
  // ---------------------------------------------------------------------------------------------

  predicate Active(l: Lease) { l.phase == Migrating || l.phase == Held }

  /** The outstanding leases of a client. */
  function Holders(c: Cache, x: nat): set<nat> { set l | l in c.leases && c.leases[l].client == x && Active(c.leases[l]) }

  /** The order lists open clients, one for each token. */
  ghost predicate OrderOk(c: Cache) {
    && (forall x :: x in c.order ==> x in c.entries && x !in c.closed)
    && (forall i, j :: 0 <= i < j < |c.order| ==> c.entries[c.order[i]].token != c.entries[c.order[j]].token)
  }

  /** Counted references are outstanding leases, and a closed client still leased was reported broken. */
  ghost predicate CountsOk(c: Cache) {
    && (forall l :: l in c.leases ==> c.leases[l].client in c.entries)
    && (forall x :: x in c.entries ==> c.entries[x].refs == |Holders(c, x)|)
    && (forall x :: x in c.closed && x in c.entries && Holders(c, x) != {} ==> x in c.broken)
  }

  ghost predicate Valid(c: Cache) {
    && OrderOk(c) && CountsOk(c) && c.broken <= c.closed
    && (forall x :: x in c.entries <==> x in c.order || x in c.closed)
    && (forall t :: t in c.opening ==> !Mapped(c, t))
  }

  lemma DropKeepsOrder(c: Cache, i: nat)
    requires OrderOk(c) && i <= |c.order|
    ensures OrderOk(c.(order := Drop(c.order, i)))
    ensures forall x :: x in Drop(c.order, i) <==> x in c.order && (i < |c.order| ==> x != c.order[i])
  {
    var d := Drop(c.order, i);
    assert forall k :: 0 <= k < |d| ==> d[k] == c.order[if k < i then k else k + 1];
    forall x | x in c.order && (i < |c.order| ==> x != c.order[i]) ensures x in d {
      var k :| 0 <= k < |c.order| && c.order[k] == x;
      assert d[if k < i then k else k - 1] == x;
    }
  }

  /** In a valid order the position of a listed client's token is the client's own. */
  lemma PositionIsOwn(c: Cache, x: nat)
    requires OrderOk(c) && x in c.order
    ensures var i := PositionOf(c.order, c.entries, c.entries[x].token); i < |c.order| && c.order[i] == x
  {
    var k :| 0 <= k < |c.order| && c.order[k] == x;
  }

  lemma UnlistKeepsOrder(c: Cache, x: nat)
    requires OrderOk(c) && x in c.entries
    ensures OrderOk(c.(order := Unlist(c, x)))
    ensures forall y :: y in Unlist(c, x) <==> y in c.order && y != x
  {
    if x in c.order {
      PositionIsOwn(c, x);
      DropKeepsOrder(c, PositionOf(c.order, c.entries, c.entries[x].token));
    }
  }

  lemma HoldersOther(c: Cache, y: nat, lease: nat, l: Lease)
    requires l.client != y && (lease in c.leases ==> c.leases[lease].client != y)
    ensures Holders(c.(leases := c.leases[lease := l]), y) == Holders(c, y)
  {
  }

  lemma HoldersOwn(c: Cache, lease: nat, l: Lease)
    requires lease in c.leases ==> c.leases[lease].client == l.client
    ensures Holders(c.(leases := c.leases[lease := l]), l.client)
         == if Active(l) then Holders(c, l.client) + {lease} else Holders(c, l.client) - {lease}
  {
  }

  /** References of client `x` follow its leases when `lease` changes phase. */
  ghost predicate Recounts(c: Cache, c': Cache, x: nat, lease: nat, phase: Phase) {
    var before := lease in c.leases && Active(c.leases[lease]);
    var delta := (if Active(Lease(x, phase)) then 1 else 0) - if before then 1 else 0;
    && x in c.entries
    && (lease in c.leases ==> c.leases[lease].client == x)
    && c'.leases == c.leases[lease := Lease(x, phase)]
    && c'.entries == AddRef(c, x, delta).entries
  }

  lemma RefsFollowLeases(c: Cache, c': Cache, x: nat, lease: nat, phase: Phase, y: nat)
    requires CountsOk(c) && Recounts(c, c', x, lease, phase) && y in c.entries
    ensures c'.entries[y].refs == |Holders(c', y)|
    ensures Holders(c', y) <= Holders(c, y) + if Active(Lease(x, phase)) && y == x then {lease} else {}
  {
    var l := Lease(x, phase);
    assert Holders(c', y) == Holders(c.(leases := c.leases[lease := l]), y);
    if y == x {
      HoldersOwn(c, lease, l);
      assert lease in Holders(c, x) <==> lease in c.leases && Active(c.leases[lease]);
    } else {
      HoldersOther(c, y, lease, l);
    }
  }

  lemma CountsKept(c: Cache, c': Cache, x: nat, lease: nat, phase: Phase)
    requires CountsOk(c) && Recounts(c, c', x, lease, phase)
    requires c.broken <= c'.broken && c'.closed <= c.closed + {x}
    requires Active(Lease(x, phase)) ==> x !in c'.closed || x in c'.broken || Holders(c, x) != {}
    requires x in c'.closed && x !in c.closed ==> x in c'.broken || c'.entries[x].refs <= 0
    ensures CountsOk(c')
  {
    forall y | y in c'.entries
      ensures c'.entries[y].refs == |Holders(c', y)|
      ensures y in c'.closed && Holders(c', y) != {} ==> y in c'.broken
    {
      RefsFollowLeases(c, c', x, lease, phase, y);
    }
  }

  lemma AppendKeepsOrder(c: Cache, x: nat)
    requires OrderOk(c) && x in c.entries && x !in c.closed && !Mapped(c, c.entries[x].token)
    ensures OrderOk(c.(order := c.order + [x]))
  {
  }

  lemma BorrowKeepsOrder(c: Cache, x: nat, lease: nat)
    requires OrderOk(c) && x in c.entries && x !in c.closed
    requires x in c.order || !Mapped(c, c.entries[x].token)
    ensures OrderOk(Borrow(c, x, lease))
    ensures forall y :: y in Borrow(c, x, lease).order <==> y in c.order || y == x
  {
    var i := PositionOf(c.order, c.entries, c.entries[x].token);
    var c1 := c.(order := Drop(c.order, i));
    DropKeepsOrder(c, i);
    if x in c.order {
      PositionIsOwn(c, x);
    } else {
      assert i == |c.order|;
    }
    UnmappedAfterDrop(c, x);
    AppendKeepsOrder(c1, x);
    SameTokensKeepOrder(c1.(order := c1.order + [x]), Borrow(c, x, lease));
  }

  lemma SameTokensKeepOrder(c: Cache, c': Cache)
    requires OrderOk(c) && c'.order == c.order && c'.closed == c.closed && c'.entries.Keys == c.entries.Keys
    requires forall y :: y in c.entries ==> c'.entries[y].token == c.entries[y].token
    ensures OrderOk(c')
  {
  }

  lemma BorrowKeepsValid(c: Cache, x: nat, lease: nat)
    requires OrderOk(c) && CountsOk(c) && c.broken <= c.closed && x in c.entries && x !in c.closed && lease !in c.leases
    requires forall y :: y != x ==> (y in c.entries <==> y in c.order || y in c.closed)
    requires x in c.order || !Mapped(c, c.entries[x].token)
    requires forall t :: t in c.opening ==> !Mapped(c, t) && t != c.entries[x].token
    ensures Valid(Borrow(c, x, lease))
  {
    BorrowKeepsOrder(c, x, lease);
    CountsKept(c, Borrow(c, x, lease), x, lease, Migrating);
  }

  lemma UnmappedAfterDrop(c: Cache, x: nat)
    requires OrderOk(c) && x in c.entries
    ensures !Mapped(c.(order := Unmap(c.order, c.entries, c.entries[x].token)), c.entries[x].token)
  {
    var token := c.entries[x].token;
    var i := PositionOf(c.order, c.entries, token);
    DropKeepsOrder(c, i);
    forall y | y in c.order && c.entries[y].token == token ensures i < |c.order| && c.order[i] == y {
      var k :| 0 <= k < |c.order| && c.order[k] == y;
    }
  }

  lemma CloseIdleKeepsValid(c: Cache, i: nat)
    requires Valid(c) && i < |c.order| && Idle(c, c.order[i])
    ensures Valid(CloseAt(c, i))
  {
    DropKeepsOrder(c, i);
    var x, c' := c.order[i], CloseAt(c, i);
    assert forall y :: Holders(c', y) == Holders(c, y);
    assert |Holders(c, x)| == 0;
    forall t | t in c.opening ensures !Mapped(c', t) {
      assert forall y :: y in c'.order ==> y in c.order;
    }
  }

  lemma {:induction false} EvictedKeepsValid(c: Cache)
    requires Valid(c)
    ensures Valid(Evicted(c))
    ensures |Evicted(c).order| <= c.max || AllInUse(Evicted(c))
    ensures c.closed <= Evicted(c).closed && Evicted(c).leases == c.leases && Evicted(c).broken == c.broken && Evicted(c).max == c.max
    ensures forall x :: x in Evicted(c).closed && x !in c.closed ==> Idle(c, x)
    decreases |c.order|
  {
    var i := FirstIdle(c, 0);
    if |c.order| > c.max && i < |c.order| {
      CloseIdleKeepsValid(c, i);
      EvictedKeepsValid(CloseAt(c, i));
    }
  }

  lemma AbandonKeepsOrder(c: Cache, lease: nat)
    requires Valid(c) && Enabled(c, SchemaFailed(lease))
    ensures OrderOk(Abandon(c, lease))
    ensures forall y :: y in Abandon(c, lease).order || y in Abandon(c, lease).closed <==> y in c.order || y in c.closed
  {
    var x := c.leases[lease].client;
    UnlistKeepsOrder(c, x);
    if x in c.order && x !in Abandon(c, lease).order {
      assert OrderOk(c.(order := Unlist(c, x), closed := c.closed + {x}));
      SameTokensKeepOrder(c.(order := Unlist(c, x), closed := c.closed + {x}), Abandon(c, lease));
    }
  }

  lemma AbandonKeepsValid(c: Cache, lease: nat)
    requires Valid(c) && Enabled(c, SchemaFailed(lease))
    ensures Valid(Abandon(c, lease))
  {
    var x := c.leases[lease].client;
    AbandonKeepsOrder(c, lease);
    UnlistKeepsOrder(c, x);
    CountsKept(c, Abandon(c, lease), x, lease, Failed);
  }

  lemma GiveBackKeepsValid(c: Cache, lease: nat)
    requires Valid(c) && Enabled(c, Release(lease)) && c.leases[lease].phase == Held
    ensures Valid(GiveBack(c, lease))
  {
    var x := c.leases[lease].client;
    CountsKept(c, GiveBack(c, lease), x, lease, Released);
  }

  lemma ReadyKeepsValid(c: Cache, lease: nat)
    requires Valid(c) && Enabled(c, SchemaReady(lease))
    ensures Valid(c.(leases := c.leases[lease := c.leases[lease].(phase := Held)]))
  {
    var c' := c.(leases := c.leases[lease := c.leases[lease].(phase := Held)]);
    forall y | y in c.entries ensures Holders(c', y) == Holders(c, y) {
    }
  }

  lemma DropClientKeepsValid(c: Cache, x: nat)
    requires Valid(c) && x in c.entries
    ensures Valid(Step(c, EvictClient(x)))
  {
    UnlistKeepsOrder(c, x);
    var c' := Step(c, EvictClient(x));
    forall y | y in c.entries ensures Holders(c', y) == Holders(c, y) {
    }
  }

  /** The actions that end in an eviction pass, and the state the pass starts from. */
  predicate Passes(c: Cache, a: Action)
    requires Enabled(c, a)
  {
    a.SchemaReady? || (a.Release? && c.leases[a.lease].phase == Held)
  }

  function BeforePass(c: Cache, a: Action): Cache
    requires Enabled(c, a) && Passes(c, a)
  {
    if a.SchemaReady? then c.(leases := c.leases[a.lease := c.leases[a.lease].(phase := Held)]) else GiveBack(c, a.lease)
  }

  lemma PassingStep(c: Cache, a: Action)
    requires Valid(c) && Enabled(c, a) && Passes(c, a)
    ensures Step(c, a) == Evicted(BeforePass(c, a)) && Valid(BeforePass(c, a)) && Valid(Step(c, a))
    ensures Step(c, a).leases == BeforePass(c, a).leases && Step(c, a).broken == c.broken
    ensures |Step(c, a).order| <= c.max || AllInUse(Step(c, a))
  {
    if a.SchemaReady? {
      ReadyKeepsValid(c, a.lease);
    } else {
      GiveBackKeepsValid(c, a.lease);
    }
    EvictedKeepsValid(BeforePass(c, a));
  }

  lemma StepKeepsValid(c: Cache, a: Action)
    requires Valid(c) && Enabled(c, a)
    ensures Valid(Step(c, a))
  {
    match a
    case Hit(client, lease) => BorrowKeepsValid(c, client, lease);
    case Enter(token) =>
    case GiveUp(token) =>
    case Opened(token, client, lease) => OpenedKeepsValid(c, token, client, lease);
    case SchemaReady(lease) => PassingStep(c, a);
    case SchemaFailed(lease) => AbandonKeepsValid(c, lease);
    case Release(lease) =>
      if c.leases[lease].phase == Held {
        PassingStep(c, a);
      }
    case EvictClient(client) => DropClientKeepsValid(c, client);
  }

  lemma OpenedKeepsValid(c: Cache, token: string, client: nat, lease: nat)
    requires Valid(c) && Enabled(c, Opened(token, client, lease))
    ensures Valid(Step(c, Opened(token, client, lease)))
  {
    var c1 := c.(entries := c.entries[client := Entry(token, 0)], opening := c.opening - {token});
    forall y | y in c1.entries ensures Holders(c1, y) == Holders(c, y) {
    }
    assert Holders(c, client) == {};
    BorrowKeepsValid(c1, client, lease);
  }

  // ---------------------------------------------------------------------------------------------
  // Main results
  // ---------------------------------------------------------------------------------------------

  predicate Runs(c: Cache, actions: seq<Action>)
    decreases actions
  {
    actions == [] || (Enabled(c, actions[0]) && Runs(Step(c, actions[0]), actions[1..]))
  }

  function Run(c: Cache, actions: seq<Action>): Cache
    requires Runs(c, actions)
    decreases actions
  {
    if actions == [] then c else Run(Step(c, actions[0]), actions[1..])
  }

  function Fresh(max: nat): Cache { Cache(max, [], map[], map[], {}, {}, {}) }

  lemma StepBreaks(c: Cache, a: Action)
    requires Valid(c) && Enabled(c, a)
    ensures Step(c, a).broken == c.broken + if a.EvictClient? then {a.client} else {}
  {
    if Passes(c, a) {
      PassingStep(c, a);
    }
  }

  lemma {:induction false} RunKeepsValid(c: Cache, actions: seq<Action>)
    requires Valid(c) && Runs(c, actions)
    ensures Valid(Run(c, actions))
    ensures forall x :: x in Run(c, actions).broken <==> x in c.broken || EvictClient(x) in actions
    decreases actions
  {
    if actions != [] {
      StepKeepsValid(c, actions[0]);
      StepBreaks(c, actions[0]);
      RunKeepsValid(Step(c, actions[0]), actions[1..]);
      assert forall x :: EvictClient(x) in actions <==> EvictClient(x) == actions[0] || EvictClient(x) in actions[1..];
    }
  }

  /**
   * Over every run of borrows, failed schemas, releases, repeated releases and connection errors: an
   * outstanding lease's client is closed exactly when `evictClient` was called on it. Eviction never does it.
   */
  lemma LeasedClientIsClosedIffReportedBroken(max: nat, actions: seq<Action>, lease: nat)
    requires Runs(Fresh(max), actions)
    requires lease in Run(Fresh(max), actions).leases && Active(Run(Fresh(max), actions).leases[lease])
    ensures var x := Run(Fresh(max), actions).leases[lease].client;
            x in Run(Fresh(max), actions).closed <==> EvictClient(x) in actions
  {
    RunKeepsValid(Fresh(max), actions);
    var c := Run(Fresh(max), actions);
    assert lease in Holders(c, c.leases[lease].client);
  }

  /** One client is mapped for each token, mapped clients are open, and an unmapped client has been closed. */
  lemma OneClientPerTokenAndNoLeak(max: nat, actions: seq<Action>, x: nat, y: nat)
    requires Runs(Fresh(max), actions) && x in Run(Fresh(max), actions).entries
    ensures var c := Run(Fresh(max), actions);
            && (x in c.order <==> x !in c.closed)
            && (x in c.order && y in c.order && y in c.entries && c.entries[x].token == c.entries[y].token ==> x == y)
  {
    RunKeepsValid(Fresh(max), actions);
    var c := Run(Fresh(max), actions);
    if x in c.order && y in c.order {
      PositionIsOwn(c, x);
      PositionIsOwn(c, y);
    }
  }

  /** After a pass the cache fits or every entry is in use, and the pass closed no more than it had to. */
  lemma PassFitsOrAllInUse(max: nat, actions: seq<Action>, a: Action)
    requires Runs(Fresh(max), actions) && Enabled(Run(Fresh(max), actions), a)
    requires Passes(Run(Fresh(max), actions), a)
    ensures var c, c' := Run(Fresh(max), actions), Step(Run(Fresh(max), actions), a);
            && (|c'.order| <= c'.max || AllInUse(c'))
            && (|c'.order| == |c.order| || c'.max <= |c'.order|)
  {
    var c := Run(Fresh(max), actions);
    RunKeepsValid(Fresh(max), actions);
    PassingStep(c, a);
    EvictedIsMinimal(BeforePass(c, a));
  }

  lemma {:induction false} EvictedIsMinimal(c: Cache)
    ensures Evicted(c).max == c.max
    ensures Evicted(c).order == c.order || c.max <= |Evicted(c).order|
    decreases |c.order|
  {
    var i := FirstIdle(c, 0);
    if |c.order| > c.max && i < |c.order| {
      EvictedIsMinimal(CloseAt(c, i));
    }
  }

  /** `x` is borrowed less recently than `y`. */
  ghost predicate Older(order: seq<nat>, x: nat, y: nat) {
    exists i, j :: 0 <= i < j < |order| && order[i] == x && order[j] == y
  }

  lemma DropKeepsAge(order: seq<nat>, i: nat, x: nat, y: nat)
    requires i <= |order| && Older(Drop(order, i), x, y)
    ensures Older(order, x, y)
  {
    var d := Drop(order, i);
    var k, m :| 0 <= k < m < |d| && d[k] == x && d[m] == y;
    var k', m' := if k < i then k else k + 1, if m < i then m else m + 1;
    assert order[k'] == x && order[m'] == y;
  }

  lemma FirstIdleIsOldest(c: Cache, y: nat)
    requires y in c.order && Idle(c, y)
    ensures FirstIdle(c, 0) < |c.order| && (c.order[FirstIdle(c, 0)] == y || Older(c.order, c.order[FirstIdle(c, 0)], y))
  {
    var k :| 0 <= k < |c.order| && c.order[k] == y;
    assert FirstIdle(c, 0) <= k;
  }

  /** The pass takes the least recently used: a closed client is older than every idle client it leaves. */
  lemma {:induction false} PassClosesOldestIdle(c: Cache, x: nat, y: nat)
    requires Valid(c) && x in c.order && x !in Evicted(c).order && y in Evicted(c).order && Idle(c, y)
    ensures Older(c.order, x, y) && Idle(c, x)
    decreases |c.order|
  {
    var i := FirstIdle(c, 0);
    if |c.order| > c.max && i < |c.order| {
      var c' := CloseAt(c, i);
      CloseIdleKeepsValid(c, i);
      DropKeepsOrder(c, i);
      SurvivorWasListed(c', y);
      if x == c.order[i] {
        FirstIdleIsOldest(c, y);
      } else {
        PassClosesOldestIdle(c', x, y);
        DropKeepsAge(c.order, i, x, y);
      }
    }
  }

  lemma {:induction false} SurvivorWasListed(c: Cache, y: nat)
    requires Valid(c) && y in Evicted(c).order
    ensures y in c.order
    decreases |c.order|
  {
    var i := FirstIdle(c, 0);
    if |c.order| > c.max && i < |c.order| {
      CloseIdleKeepsValid(c, i);
      DropKeepsOrder(c, i);
      SurvivorWasListed(CloseAt(c, i), y);
    }
  }

  lemma StepKeepsReleased(c: Cache, a: Action, lease: nat)
    requires Valid(c) && Enabled(c, a) && lease in c.leases && c.leases[lease].phase == Released
    ensures lease in Step(c, a).leases && Step(c, a).leases[lease].phase == Released
  {
    if Passes(c, a) {
      PassingStep(c, a);
    }
  }

  lemma {:induction false} ReleasedStaysReleased(c: Cache, actions: seq<Action>, lease: nat)
    requires Valid(c) && Runs(c, actions) && lease in c.leases && c.leases[lease].phase == Released
    ensures lease in Run(c, actions).leases && Run(c, actions).leases[lease].phase == Released
    decreases actions
  {
    if actions != [] {
      StepKeepsValid(c, actions[0]);
      StepKeepsReleased(c, actions[0], lease);
      ReleasedStaysReleased(Step(c, actions[0]), actions[1..], lease);
    }
  }

  /** Releasing a lease a second time, however much later and whatever happened since, changes nothing. */
  lemma DoubleReleaseIsHarmless(c: Cache, lease: nat, later: seq<Action>)
    requires Valid(c) && Enabled(c, Release(lease)) && Runs(Step(c, Release(lease)), later)
    ensures var c' := Run(Step(c, Release(lease)), later);
            Enabled(c', Release(lease)) && Step(c', Release(lease)) == c'
  {
    StepKeepsValid(c, Release(lease));
    if c.leases[lease].phase == Held {
      PassingStep(c, Release(lease));
    }
    ReleasedStaysReleased(Step(c, Release(lease)), later, lease);
    RunKeepsValid(Step(c, Release(lease)), later);
  }
}
