/**
 * The transcript reducers are confluent: for a legal history the visible rows are a function of which
 * stream rows, sends and receipts there were, not of how their arrivals interleave.
 */
module TranscriptProperties {
  import opened Common
  import opened Transcript

  /** Rows with a place in the stream, and this browser's own rows; the rest are numberless notices. */
  predicate Shown(m: Message) {
    m.number.Some? || Provisional(m)
  }

  function Visible(rows: seq<Message>): seq<Message> {
    if rows == [] then [] else (if Shown(rows[0]) then [rows[0]] else []) + Visible(rows[1..])
  }

  ghost predicate Unique(rows: seq<Message>) {
    forall i, j :: 0 <= i < j < |rows| ==> rows[i].msgId != rows[j].msgId
  }

  predicate HasId(rows: seq<Message>, id: string) {
    exists m :: m in rows && m.msgId == id
  }

  // ---------------------------------------------------------------------------------------------
  // Lists
  // ---------------------------------------------------------------------------------------------

  lemma {:induction false} VisibleAppend(a: seq<Message>, b: seq<Message>)
    ensures Visible(a + b) == Visible(a) + Visible(b)
  {
    if a == [] {
      assert a + b == b;
    } else {
      assert (a + b)[1..] == a[1..] + b && (a + b)[0] == a[0];
      VisibleAppend(a[1..], b);
      AppendAssociates(if Shown(a[0]) then [a[0]] else [], Visible(a[1..]), Visible(b));
    }
  }

  lemma {:induction false} VisibleMembers(rows: seq<Message>)
    ensures forall m :: m in Visible(rows) <==> m in rows && Shown(m)
  {
    if rows != [] {
      VisibleMembers(rows[1..]);
    }
  }

  lemma {:induction false} WithoutIdMembers(rows: seq<Message>, id: string)
    ensures forall m :: m in WithoutId(rows, id) <==> m in rows && m.msgId != id
    ensures Unique(rows) ==> Unique(WithoutId(rows, id))
  {
    if rows != [] {
      WithoutIdMembers(rows[1..], id);
      assert rows == [rows[0]] + rows[1..];
      var rest := WithoutId(rows[1..], id);
      if Unique(rows) {
        assert Unique(rows[1..]);
        forall j | 0 <= j < |rest| ensures rest[j].msgId != rows[0].msgId {
          assert rest[j] in rows[1..];
        }
      }
    }
  }

  lemma {:induction false} WithoutIdAppend(a: seq<Message>, b: seq<Message>, id: string)
    ensures WithoutId(a + b, id) == WithoutId(a, id) + WithoutId(b, id)
  {
    if a == [] {
      assert a + b == b;
    } else {
      assert (a + b)[1..] == a[1..] + b;
      WithoutIdAppend(a[1..], b, id);
    }
  }

  lemma {:induction false} WithoutAbsentId(rows: seq<Message>, id: string)
    requires !HasId(rows, id)
    ensures WithoutId(rows, id) == rows
  {
    if rows != [] {
      assert rows[0] in rows;
      forall m | m in rows[1..] ensures m.msgId != id {
        assert m in rows;
      }
      WithoutAbsentId(rows[1..], id);
      assert rows == [rows[0]] + rows[1..];
    }
  }

  lemma {:induction false} RemoveUnique(rows: seq<Message>, id: string)
    requires Unique(rows) && IndexOfId(rows, id) < |rows|
    ensures RemoveAt(rows, IndexOfId(rows, id)) == WithoutId(rows, id)
  {
    var i, rest := IndexOfId(rows, id), rows[1..];
    if i == 0 {
      WithoutAbsentId(rest, id);
      assert RemoveAt(rows, 0) == rest;
    } else {
      assert Unique(rest) && IndexOfId(rest, id) == i - 1;
      RemoveUnique(rest, id);
      assert RemoveAt(rows, i) == [rows[0]] + RemoveAt(rest, i - 1);
    }
  }

  lemma {:induction false} VisibleWithoutId(rows: seq<Message>, id: string)
    ensures Visible(WithoutId(rows, id)) == WithoutId(Visible(rows), id)
  {
    if rows != [] {
      var head := [rows[0]];
      assert head[1..] == [];
      VisibleWithoutId(rows[1..], id);
      VisibleAppend(if rows[0].msgId != id then head else [], WithoutId(rows[1..], id));
      WithoutIdAppend(if Shown(rows[0]) then head else [], Visible(rows[1..]), id);
    }
  }

  lemma {:induction false} VisibleMap(rows: seq<Message>, f: Message -> Message)
    requires forall m :: m in rows ==> (Shown(f(m)) <==> Shown(m))
    ensures Visible(Map(rows, f)) == Map(Visible(rows), f)
  {
    if rows != [] {
      assert rows[0] in rows;
      forall m | m in rows[1..] ensures Shown(f(m)) <==> Shown(m) {
        assert m in rows;
      }
      VisibleMap(rows[1..], f);
      assert Map(rows, f)[1..] == Map(rows[1..], f);
    }
  }

  lemma VisibleSplice(front: seq<Message>, m: Message, back: seq<Message>)
    requires m.number.Some?
    ensures Visible(front + [m] + back) == Visible(front) + [m] + Visible(back)
  {
    VisibleAppend(front + [m], back);
    VisibleAppend(front, [m]);
    assert [m][1..] == [];
  }

  /** Inserting a numbered row commutes with forgetting the notices. */
  lemma VisibleInsert(rows: seq<Message>, m: Message)
    requires m.number.Some?
    ensures Visible(Insert(rows, m)) == Insert(Visible(rows), m)
  {
    var i := IndexOfProvisional(rows);
    var front, back := rows[..i], rows[i..];
    VisibleSplice(front, m, back);
    assert Visible(rows) == Visible(front) + Visible(back) by {
      assert rows == front + back;
      VisibleAppend(front, back);
    }
    forall k | 0 <= k < |Visible(front)| ensures !Provisional(Visible(front)[k]) {
      VisibleMembers(front);
      assert Visible(front)[k] in front;
    }
    InsertBetween(Visible(front), Visible(back), m);
  }

  lemma InsertBetween(front: seq<Message>, back: seq<Message>, m: Message)
    requires m.number.Some?
    requires forall k :: 0 <= k < |front| ==> !Provisional(front[k])
    requires back != [] ==> Provisional(back[0])
    ensures Insert(front + back, m) == front + [m] + back
  {
    var rows := front + back;
    var i := IndexOfProvisional(rows);
    assert forall k :: 0 <= k < |front| ==> rows[k] == front[k];
    assert back != [] ==> rows[|front|] == back[0];
    assert i == |front|;
    assert rows[..i] == front && rows[i..] == back;
  }

  // ---------------------------------------------------------------------------------------------
  // The facts a history establishes, and what they render to
  // ---------------------------------------------------------------------------------------------

  /**
   * `rows`: the numbered stream rows in order of first arrival; `sends`: the optimistic rows in order
   * of sending; `acked`: the number each receipt gave a client id sent here, and `byRow` its inverse;
   * `marked`: the client id that the last receipt for a message not sent here gave a row already in the
   * stream; `doubted`: client ids whose publish failed before a receipt; `notices`: ids of numberless
   * stream rows.
   */
  datatype Facts = Facts(
    rows: seq<Message>,
    sends: seq<Message>,
    acked: map<string, nat>,
    byRow: map<string, string>,
    marked: map<string, string>,
    doubted: set<string>,
    notices: set<string>)

  const NONE := Facts([], [], map[], map[], map[], {}, {})

  function SentIds(f: Facts): set<string> {
    set s | s in f.sends && s.clientMsgId.Some? :: s.clientMsgId.value
  }

  function Learn(f: Facts, e: Event): Facts {
    match e
    case Send(c, text, staged) => f.(sends := f.sends + [OptimisticMessage(c, text, staged)])
    case Stream(m) =>
      if m.number.None? then f.(notices := f.notices + {m.msgId})
      else if HasId(f.rows, m.msgId) then f
      else f.(rows := f.rows + [m])
    case Ack(c, q) =>
      if c in SentIds(f) then f.(acked := f.acked[c := q], byRow := f.byRow[UserId(q) := c])
      else if HasId(f.rows, UserId(q)) then f.(marked := f.marked[UserId(q) := c])
      else f
    case Unknown(c) => f.(doubted := f.doubted + ({c} * SentIds(f) - f.acked.Keys))
    case AllUnknown => f.(doubted := f.doubted + (SentIds(f) - f.acked.Keys))
  }

  function FactsOf(events: seq<Event>): Facts {
    if events == [] then NONE else Learn(FactsOf(events[..|events| - 1]), events[|events| - 1])
  }

  /** The client id whose receipt stands on a row: this page's own send before anyone else's. */
  function Sender(f: Facts, id: string): Option<string> {
    if id in f.byRow then Some(f.byRow[id])
    else if id in f.marked then Some(f.marked[id])
    else None
  }

  function RenderRow(f: Facts, m: Message): Message {
    match Sender(f, m.msgId)
    case Some(c) => Accept(m, c)
    case None => m
  }

  function RenderSend(f: Facts, s: Message): seq<Message>
    requires s.clientMsgId.Some?
  {
    var c := s.clientMsgId.value;
    if c in f.acked
    then if HasId(f.rows, UserId(f.acked[c])) then [] else [Rekey(s, f.acked[c])]
    else [if c in f.doubted then Doubt(s) else s]
  }

  function RenderRows(f: Facts, rows: seq<Message>): seq<Message> {
    seq(|rows|, i requires 0 <= i < |rows| => RenderRow(f, rows[i]))
  }

  function RenderSends(f: Facts, sends: seq<Message>): seq<Message>
    requires forall s :: s in sends ==> s.clientMsgId.Some?
  {
    if sends == [] then [] else RenderSend(f, sends[0]) + RenderSends(f, sends[1..])
  }

  /** Accepted or plain stream rows in stream order, then the local rows still waiting for content. */
  function Render(f: Facts): seq<Message>
    requires forall s :: s in f.sends ==> s.clientMsgId.Some?
  {
    RenderRows(f, f.rows) + RenderSends(f, f.sends)
  }

  predicate IsPendingId(id: string) { "pending-" <= id }

  /**
   * What the page's sources promise: client ids are fresh, a receipt pairs one client id sent here with
   * one number, and stream rows carry stream ids. A receipt may name a client id never sent here: after
   * a reload, on another device, or on returning to a session, the whole log is replayed.
   */
  predicate Legal(f: Facts, e: Event) {
    match e
    case Send(c, _, _) => c !in SentIds(f)
    case Stream(m) =>
      && m.clientMsgId.None? && m.optimistic.None? && m.deliveryUnknown.None?
      && !IsPendingId(m.msgId)
      && (m.number.None? ==> m.msgId !in f.byRow && !HasId(f.rows, m.msgId))
      && (m.number.Some? ==> m.msgId !in f.notices && (m.msgId in f.byRow ==> m.kind == "user"))
    case Ack(c, q) =>
      && (c in f.acked ==> f.acked[c] == q)
      && (UserId(q) in f.byRow ==> f.byRow[UserId(q)] == c)
      && UserId(q) !in f.notices
    case Unknown(_) => true
    case AllUnknown => true
  }

  predicate LegalHistory(events: seq<Event>) {
    forall i :: 0 <= i < |events| ==> Legal(FactsOf(events[..i]), events[i])
  }

  // ---------------------------------------------------------------------------------------------
  // Coherence of the facts
  // ---------------------------------------------------------------------------------------------

  predicate IsSend(s: Message) {
    && s.kind == "user" && s.number.None? && s.clientMsgId.Some?
    && s.msgId == PendingId(s.clientMsgId.value)
    && s.optimistic == Some(true) && s.deliveryUnknown.None?
  }

  predicate IsStreamRow(m: Message) {
    && m.number.Some? && m.clientMsgId.None? && m.optimistic.None? && m.deliveryUnknown.None?
    && !IsPendingId(m.msgId)
  }

  ghost predicate Coherent(f: Facts) {
    && (forall s :: s in f.sends ==> IsSend(s))
    && Unique(f.sends)
    && (forall m :: m in f.rows ==> IsStreamRow(m) && m.msgId !in f.notices)
    && Unique(f.rows)
    && f.acked.Keys <= SentIds(f)
    && f.doubted <= SentIds(f)
    && (forall c :: c in f.acked ==> UserId(f.acked[c]) in f.byRow && f.byRow[UserId(f.acked[c])] == c)
    && (forall id :: id in f.byRow ==> f.byRow[id] in f.acked && UserId(f.acked[f.byRow[id]]) == id)
    && (forall id :: id in f.byRow ==> id !in f.notices)
    && (forall id :: id in f.marked ==> HasId(f.rows, id))
    && (forall id :: id in f.notices ==> !IsPendingId(id))
  }

  lemma PendingIdInjective(c: string, d: string)
    ensures PendingId(c) == PendingId(d) ==> c == d
    ensures IsPendingId(PendingId(c)) && IsPendingId(PendingId(d))
  {
    assert PendingId(c)[8..] == c && PendingId(d)[8..] == d;
  }

  lemma UserIdInjective(q: nat, r: nat)
    ensures UserId(q) == UserId(r) ==> q == r
    ensures !IsPendingId(UserId(q)) && !IsPendingId(UserId(r))
  {
    assert UserId(q)[5..] == Decimal(q) && UserId(r)[5..] == Decimal(r);
    if Decimal(q) == Decimal(r) {
      DecimalInjective(q, r);
    }
    assert UserId(q)[0] == 'u' && UserId(r)[0] == 'u';
  }

  lemma LearnSendCoherent(f: Facts, c: string, text: string, staged: seq<string>)
    requires Coherent(f) && Legal(f, Send(c, text, staged))
    ensures Coherent(Learn(f, Send(c, text, staged)))
  {
    var s := OptimisticMessage(c, text, staged);
    var g := Learn(f, Send(c, text, staged));
    assert g.sends == f.sends + [s] && g == f.(sends := g.sends);
    assert forall d :: d in SentIds(f) ==> d in SentIds(g) by {
      forall d | d in SentIds(f) ensures d in SentIds(g) {
        var x :| x in f.sends && x.clientMsgId == Some(d);
        assert x in g.sends;
      }
    }
    forall i | 0 <= i < |f.sends| ensures f.sends[i].msgId != s.msgId {
      assert f.sends[i] in f.sends;
      PendingIdInjective(f.sends[i].clientMsgId.value, c);
    }
  }

  lemma LearnStreamCoherent(f: Facts, m: Message)
    requires Coherent(f) && Legal(f, Stream(m))
    ensures Coherent(Learn(f, Stream(m)))
  {
    var g := Learn(f, Stream(m));
    assert SentIds(g) == SentIds(f);
    if m.number.Some? && !HasId(f.rows, m.msgId) {
      assert forall i :: 0 <= i < |f.rows| ==> f.rows[i] in f.rows;
      assert Unique(g.rows);
      forall id | id in g.marked ensures HasId(g.rows, id) {
        HasIdAppend(f.rows, m, id);
      }
    }
  }

  lemma HasIdAppend(rows: seq<Message>, m: Message, id: string)
    ensures HasId(rows + [m], id) <==> HasId(rows, id) || m.msgId == id
  {
    if HasId(rows, id) {
      var x :| x in rows && x.msgId == id;
      assert x in rows + [m];
    }
    assert m in rows + [m];
  }

  lemma LearnAckCoherent(f: Facts, c: string, q: nat)
    requires Coherent(f) && Legal(f, Ack(c, q)) && c in SentIds(f)
    ensures Coherent(Learn(f, Ack(c, q)))
  {
    var g := f.(acked := f.acked[c := q], byRow := f.byRow[UserId(q) := c]);
    assert SentIds(g) == SentIds(f);
    AckKeepsInverse(f, c, q);
  }

  lemma AckKeepsInverse(f: Facts, c: string, q: nat)
    requires Coherent(f) && Legal(f, Ack(c, q))
    ensures var acked, byRow := f.acked[c := q], f.byRow[UserId(q) := c];
            && (forall d :: d in acked ==> UserId(acked[d]) in byRow && byRow[UserId(acked[d])] == d)
            && (forall id :: id in byRow ==> byRow[id] in acked && UserId(acked[byRow[id]]) == id)
  {
    forall d | d in f.acked && d != c ensures UserId(f.acked[d]) != UserId(q) {
      UserIdInjective(f.acked[d], q);
    }
  }

  // ---------------------------------------------------------------------------------------------
  // What the reducers keep for every history
  // ---------------------------------------------------------------------------------------------

  lemma FindUnique(rows: seq<Message>, m: Message)
    requires Unique(rows) && m in rows
    ensures IndexOfId(rows, m.msgId) < |rows| && rows[IndexOfId(rows, m.msgId)] == m
  {
    var k :| 0 <= k < |rows| && rows[k] == m;
  }

  lemma SpliceMembers(front: seq<Message>, back: seq<Message>, m: Message)
    requires Unique(front + back) && !HasId(front + back, m.msgId)
    ensures Unique(front + [m] + back)
    ensures forall r :: r in front + [m] + back <==> r in front + back || r == m
  {
    var rows, after := front + back, front + [m] + back;
    forall i, j | 0 <= i < j < |after| ensures after[i].msgId != after[j].msgId {
      var i' := if i <= |front| then i else i - 1;
      var j' := if j <= |front| then j else j - 1;
      assert i != |front| ==> after[i] == rows[i'] && rows[i'] in rows;
      assert j != |front| ==> after[j] == rows[j'] && rows[j'] in rows;
    }
  }

  lemma InsertMembers(rows: seq<Message>, m: Message)
    requires Unique(rows) && !HasId(rows, m.msgId)
    ensures Unique(Insert(rows, m))
    ensures forall r :: r in Insert(rows, m) <==> r in rows || r == m
  {
    var i := if m.number.None? then |rows| else IndexOfProvisional(rows);
    assert rows == rows[..i] + rows[i..];
    assert Insert(rows, m) == rows[..i] + [m] + rows[i..];
    SpliceMembers(rows[..i], rows[i..], m);
  }

  /** Message ids stay unique whatever arrives. */
  lemma AppendKeepsUnique(rows: seq<Message>, m: Message)
    requires Unique(rows)
    ensures Unique(AppendUniqueMessage(rows, m))
  {
    var i := IndexOfId(rows, m.msgId);
    if i == |rows| {
      InsertMembers(rows, m);
    } else if m.kind == "user" && m.number.Some? && AwaitsContent(rows[i]) {
      RemoveUnique(rows, m.msgId);
      WithoutIdMembers(rows, m.msgId);
      InsertMembers(WithoutId(rows, m.msgId), Accept(m, rows[i].clientMsgId.value));
    }
  }

  lemma ReconcileKeepsUnique(rows: seq<Message>, c: string, q: nat)
    requires Unique(rows)
    ensures Unique(ReconcileAccepted(rows, c, q))
  {
    var after := ReconcileAccepted(rows, c, q);
    if IndexOfId(rows, UserId(q)) < |rows| {
      var rest := WithoutId(rows, PendingId(c));
      WithoutIdMembers(rows, PendingId(c));
      assert |after| == |rest| && forall k :: 0 <= k < |rest| ==> after[k].msgId == rest[k].msgId;
    } else {
      assert |after| == |rows| && forall k :: 0 <= k < |rows| ==>
          rows[k].msgId != UserId(q)
          && after[k].msgId == if rows[k].msgId == PendingId(c) then UserId(q) else rows[k].msgId;
    }
  }

  lemma ApplyKeepsUnique(rows: seq<Message>, e: Event)
    requires Unique(rows)
    ensures Unique(Apply(rows, e))
  {
    match e
    case Send(c, text, staged) => AppendKeepsUnique(rows, OptimisticMessage(c, text, staged));
    case Stream(m) => AppendKeepsUnique(rows, m);
    case Ack(c, q) => ReconcileKeepsUnique(rows, c, q);
    case Unknown(c) =>
    case AllUnknown =>
  }

  /** No history whatsoever puts two rows with one message id on the page. */
  lemma {:induction false} IdsStayUnique(events: seq<Event>)
    ensures Unique(Rows(events))
  {
    if events != [] {
      IdsStayUnique(events[..|events| - 1]);
      ApplyKeepsUnique(Rows(events[..|events| - 1]), events[|events| - 1]);
    }
  }

  // ---------------------------------------------------------------------------------------------
  // Rendering
  // ---------------------------------------------------------------------------------------------

  lemma {:induction false} RenderSendsMembers(f: Facts, sends: seq<Message>)
    requires forall s :: s in sends ==> s.clientMsgId.Some?
    ensures forall m :: m in RenderSends(f, sends) <==> exists s :: s in sends && m in RenderSend(f, s)
  {
    if sends != [] {
      RenderSendsMembers(f, sends[1..]);
      assert sends == [sends[0]] + sends[1..];
    }
  }

  lemma {:induction false} RenderSendsAppend(f: Facts, a: seq<Message>, b: seq<Message>)
    requires forall s :: s in a || s in b ==> s.clientMsgId.Some?
    ensures RenderSends(f, a + b) == RenderSends(f, a) + RenderSends(f, b)
  {
    if a == [] {
      assert a + b == b;
    } else {
      assert (a + b)[0] == a[0] && (a + b)[1..] == a[1..] + b;
      RenderSendsAppend(f, a[1..], b);
    }
  }

  lemma {:induction false} RenderSendsAgree(f: Facts, g: Facts, sends: seq<Message>)
    requires forall s :: s in sends ==> s.clientMsgId.Some? && RenderSend(f, s) == RenderSend(g, s)
    ensures RenderSends(f, sends) == RenderSends(g, sends)
  {
    if sends != [] {
      assert sends[0] in sends;
      assert forall s :: s in sends[1..] ==> s in sends;
      RenderSendsAgree(f, g, sends[1..]);
    }
  }

  lemma {:induction false} RenderSendsMapped(f: Facts, g: Facts, sends: seq<Message>, h: Message -> Message)
    requires forall s :: s in sends ==> s.clientMsgId.Some? && RenderSend(g, s) == Map(RenderSend(f, s), h)
    ensures RenderSends(g, sends) == Map(RenderSends(f, sends), h)
  {
    if sends != [] {
      assert sends[0] in sends;
      assert forall s :: s in sends[1..] ==> s in sends;
      RenderSendsMapped(f, g, sends[1..], h);
      MapAppend(RenderSend(f, sends[0]), RenderSends(f, sends[1..]), h);
    }
  }

  lemma {:induction false} RenderSendsWithout(f: Facts, g: Facts, sends: seq<Message>, id: string)
    requires forall s :: s in sends ==> s.clientMsgId.Some? && RenderSend(g, s) == WithoutId(RenderSend(f, s), id)
    ensures RenderSends(g, sends) == WithoutId(RenderSends(f, sends), id)
  {
    if sends != [] {
      assert sends[0] in sends;
      assert forall s :: s in sends[1..] ==> s in sends;
      RenderSendsWithout(f, g, sends[1..], id);
      WithoutIdAppend(RenderSend(f, sends[0]), RenderSends(f, sends[1..]), id);
    }
  }

  /** Every rendered row of a send is provisional, carries its client id, and has one of its two ids. */
  lemma RenderSendShape(f: Facts, s: Message)
    requires Coherent(f) && s in f.sends
    ensures |RenderSend(f, s)| <= 1
    ensures forall m :: m in RenderSend(f, s) ==>
      && Provisional(m) && m.clientMsgId == s.clientMsgId
      && (s.clientMsgId.value in f.acked
          ==> m.msgId == UserId(f.acked[s.clientMsgId.value]) && m.optimistic == Some(false)
              && m.deliveryUnknown == Some(false))
      && (s.clientMsgId.value !in f.acked ==> m.msgId == s.msgId && m.optimistic == Some(true))
  {
  }

  /** The list shows exactly what the facts render to. */
  ghost predicate Shows(rows: seq<Message>, f: Facts) {
    && Coherent(f)
    && Unique(rows)
    && Visible(rows) == Render(f)
    && forall m :: m in rows && !Shown(m) ==> m.msgId in f.notices && m.optimistic.None?
  }

  lemma ShownMembers(rows: seq<Message>, f: Facts)
    requires Shows(rows, f)
    ensures forall m :: m in rows && Shown(m) <==> m in RenderRows(f, f.rows) || m in RenderSends(f, f.sends)
    ensures forall m :: m in RenderRows(f, f.rows) ==> m.number.Some? && HasId(f.rows, m.msgId)
    ensures forall m :: m in f.rows ==> HasId(RenderRows(f, f.rows), m.msgId)
    ensures forall m :: m in RenderSends(f, f.sends) ==> Provisional(m)
  {
    VisibleMembers(rows);
    RenderSendsMembers(f, f.sends);
    forall m | m in RenderSends(f, f.sends) ensures Provisional(m) {
      var s :| s in f.sends && m in RenderSend(f, s);
      RenderSendShape(f, s);
    }
    forall m | m in f.rows ensures HasId(RenderRows(f, f.rows), m.msgId) {
      var k :| 0 <= k < |f.rows| && f.rows[k] == m;
      assert RenderRows(f, f.rows)[k].msgId == m.msgId;
      assert RenderRows(f, f.rows)[k] in RenderRows(f, f.rows);
    }
  }

  lemma RenderWithSend(f: Facts, s: Message)
    requires Coherent(f) && IsSend(s) && s.clientMsgId.value !in SentIds(f)
    ensures forall x :: x in f.sends + [s] ==> x.clientMsgId.Some?
    ensures Render(f.(sends := f.sends + [s])) == Render(f) + [s]
  {
    var g := f.(sends := f.sends + [s]);
    RenderSendsAgree(f, g, f.sends);
    RenderSendsAppend(g, f.sends, [s]);
    assert RenderSends(g, [s]) == [s];
    assert RenderRows(g, g.rows) == RenderRows(f, f.rows);
  }

  lemma SendShows(rows: seq<Message>, f: Facts, c: string, text: string, staged: seq<string>)
    requires Shows(rows, f) && Legal(f, Send(c, text, staged))
    ensures Shows(Apply(rows, Send(c, text, staged)), Learn(f, Send(c, text, staged)))
  {
    var s := OptimisticMessage(c, text, staged);
    LearnSendCoherent(f, c, text, staged);
    NewSendIsAbsent(rows, f, s);
    InsertMembers(rows, s);
    assert Visible(rows + [s]) == Render(f.(sends := f.sends + [s])) by {
      VisibleAppend(rows, [s]);
      assert [s][1..] == [];
      RenderWithSend(f, s);
    }
    assert Apply(rows, Send(c, text, staged)) == rows + [s];
  }

  /** Whose row a rendered local row is, and which id it has. */
  lemma SendOfRow(f: Facts, m: Message) returns (s: Message)
    requires Coherent(f) && m in RenderSends(f, f.sends)
    ensures s in f.sends && m in RenderSend(f, s) && IsSend(s)
    ensures s.clientMsgId.value in f.acked ==>
              m.msgId == UserId(f.acked[s.clientMsgId.value]) && !IsPendingId(m.msgId)
    ensures s.clientMsgId.value !in f.acked ==> m.msgId == PendingId(s.clientMsgId.value)
  {
    RenderSendsMembers(f, f.sends);
    s :| s in f.sends && m in RenderSend(f, s);
    RenderSendShape(f, s);
    if s.clientMsgId.value in f.acked {
      UserIdInjective(f.acked[s.clientMsgId.value], 0);
    }
  }

  lemma SendOf(f: Facts, c: string) returns (s: Message)
    requires Coherent(f) && c in SentIds(f)
    ensures s in f.sends && s.clientMsgId == Some(c)
  {
    s :| s in f.sends && s.clientMsgId == Some(c);
  }

  lemma PendingRowIsUnacked(rows: seq<Message>, f: Facts, c: string)
    requires Shows(rows, f) && HasId(rows, PendingId(c))
    ensures c in SentIds(f) && c !in f.acked
  {
    ShownMembers(rows, f);
    PendingIdInjective(c, c);
    var m :| m in rows && m.msgId == PendingId(c);
    assert forall x :: x in f.rows ==> !IsPendingId(x.msgId);
    assert m !in RenderRows(f, f.rows);
    var s := SendOfRow(f, m);
    PendingIdInjective(s.clientMsgId.value, c);
  }

  lemma NewSendIsAbsent(rows: seq<Message>, f: Facts, s: Message)
    requires Shows(rows, f) && IsSend(s) && s.clientMsgId.value !in SentIds(f)
    ensures !HasId(rows, s.msgId)
  {
    if HasId(rows, s.msgId) {
      PendingRowIsUnacked(rows, f, s.clientMsgId.value);
    }
  }

  lemma NoticeShows(rows: seq<Message>, f: Facts, m: Message)
    requires Shows(rows, f) && Legal(f, Stream(m)) && m.number.None?
    ensures Shows(Apply(rows, Stream(m)), Learn(f, Stream(m)))
  {
    var g := Learn(f, Stream(m));
    LearnStreamCoherent(f, m);
    AppendKeepsUnique(rows, m);
    VisibleAppend(rows, [m]);
    assert [m][1..] == [];
    RenderWithNotice(f, g);
  }

  lemma RenderWithNotice(f: Facts, g: Facts)
    requires Coherent(f) && g == f.(notices := g.notices)
    ensures Render(g) == Render(f)
  {
    RenderSendsAgree(f, g, f.sends);
    assert RenderRows(g, g.rows) == RenderRows(f, f.rows);
  }

  /** The list has a row of a visible id exactly when the rendering does. */
  lemma FindShown(rows: seq<Message>, f: Facts, id: string)
    requires Shows(rows, f) && id !in f.notices
    ensures HasId(rows, id) <==> HasId(f.rows, id) || HasId(RenderSends(f, f.sends), id)
    ensures HasId(rows, id) <==> IndexOfId(rows, id) < |rows|
    ensures HasId(f.rows, id) ==> rows[IndexOfId(rows, id)].number.Some?
  {
    ShownMembers(rows, f);
    if HasId(f.rows, id) {
      var x :| x in f.rows && x.msgId == id;
      var m :| m in RenderRows(f, f.rows) && m.msgId == id;
      FindUnique(rows, m);
    }
    if HasId(RenderSends(f, f.sends), id) {
      var m :| m in RenderSends(f, f.sends) && m.msgId == id;
      FindUnique(rows, m);
    }
  }

  lemma RepeatedRowShows(rows: seq<Message>, f: Facts, m: Message)
    requires Shows(rows, f) && Legal(f, Stream(m)) && m.number.Some? && HasId(f.rows, m.msgId)
    ensures Apply(rows, Stream(m)) == rows && Learn(f, Stream(m)) == f
  {
    FindShown(rows, f, m.msgId);
  }

  /** A provisional tail after numbered rows: where a numbered row is inserted. */
  lemma InsertIntoRendering(f: Facts, tail: seq<Message>, m: Message)
    requires forall x :: x in RenderRows(f, f.rows) ==> x.number.Some?
    requires forall x :: x in tail ==> Provisional(x)
    requires m.number.Some?
    ensures Insert(RenderRows(f, f.rows) + tail, m) == RenderRows(f, f.rows) + [m] + tail
  {
    var front := RenderRows(f, f.rows);
    assert forall k :: 0 <= k < |front| ==> front[k] in front;
    InsertBetween(front, tail, m);
  }

  lemma FreshRowIsAbsent(rows: seq<Message>, f: Facts, m: Message)
    requires Shows(rows, f) && Legal(f, Stream(m)) && m.number.Some?
    requires !HasId(f.rows, m.msgId) && m.msgId !in f.byRow
    ensures !HasId(rows, m.msgId)
  {
    FindShown(rows, f, m.msgId);
    forall x | x in RenderSends(f, f.sends) ensures x.msgId != m.msgId {
      var s := SendOfRow(f, x);
      PendingIdInjective(s.clientMsgId.value, s.clientMsgId.value);
    }
  }

  lemma RenderWithFreshRow(f: Facts, m: Message)
    requires Coherent(f) && m.msgId !in f.byRow && !HasId(f.rows, m.msgId)
    ensures forall s :: s in f.sends ==> s.clientMsgId.Some?
    ensures Render(f.(rows := f.rows + [m])) == RenderRows(f, f.rows) + [m] + RenderSends(f, f.sends)
  {
    var g := f.(rows := f.rows + [m]);
    forall s | s in f.sends ensures RenderSend(f, s) == RenderSend(g, s) {
      SettledAfterRow(f, m, s);
    }
    RenderSendsAgree(f, g, f.sends);
    RenderRowsSnoc(f, m);
    assert RenderRow(f, m) == m;
  }

  /** A stream row nobody here sent. */
  lemma FreshRowShows(rows: seq<Message>, f: Facts, m: Message)
    requires Shows(rows, f) && Legal(f, Stream(m)) && m.number.Some?
    requires !HasId(f.rows, m.msgId) && m.msgId !in f.byRow
    ensures Shows(Apply(rows, Stream(m)), Learn(f, Stream(m)))
  {
    LearnStreamCoherent(f, m);
    FreshRowIsAbsent(rows, f, m);
    InsertMembers(rows, m);
    assert Visible(Insert(rows, m)) == Render(f.(rows := f.rows + [m])) by {
      VisibleInsert(rows, m);
      ShownMembers(rows, f);
      InsertIntoRendering(f, RenderSends(f, f.sends), m);
      RenderWithFreshRow(f, m);
    }
    assert Apply(rows, Stream(m)) == Insert(rows, m);
  }

  lemma SettledAfterRow(f: Facts, m: Message, s: Message)
    requires Coherent(f) && s in f.sends
    ensures var c := s.clientMsgId.value;
            c in f.acked ==>
              (HasId(f.rows + [m], UserId(f.acked[c])) <==>
               HasId(f.rows, UserId(f.acked[c])) || m.msgId == UserId(f.acked[c]))
  {
    if s.clientMsgId.value in f.acked {
      HasIdAppend(f.rows, m, UserId(f.acked[s.clientMsgId.value]));
    }
  }

  lemma AwaitedRowIsFound(rows: seq<Message>, f: Facts, m: Message)
    requires Shows(rows, f) && Legal(f, Stream(m)) && m.number.Some?
    requires !HasId(f.rows, m.msgId) && m.msgId in f.byRow
    ensures Apply(rows, Stream(m)) == Insert(WithoutId(rows, m.msgId), Accept(m, f.byRow[m.msgId]))
  {
    var waiting := RekeyedRow(f, f.byRow[m.msgId]);
    ShownMembers(rows, f);
    FindUnique(rows, waiting);
    RemoveUnique(rows, m.msgId);
  }

  lemma RenderSendsProvisional(f: Facts, sends: seq<Message>)
    requires forall s :: s in sends ==> IsSend(s)
    ensures forall s :: s in sends ==> s.clientMsgId.Some?
    ensures forall x :: x in RenderSends(f, sends) ==> Provisional(x)
  {
    RenderSendsMembers(f, sends);
  }

  lemma RenderRowsLackId(f: Facts, id: string)
    requires !HasId(f.rows, id)
    ensures WithoutId(RenderRows(f, f.rows), id) == RenderRows(f, f.rows)
  {
    var front := RenderRows(f, f.rows);
    forall x | x in front ensures x.msgId != id {
      var k :| 0 <= k < |front| && front[k] == x;
      assert f.rows[k] in f.rows && f.rows[k].msgId == x.msgId;
    }
    WithoutAbsentId(front, id);
  }

  lemma RenderRowsSnoc(f: Facts, m: Message)
    ensures RenderRows(f.(rows := f.rows + [m]), f.rows + [m]) == RenderRows(f, f.rows) + [RenderRow(f, m)]
  {
  }

  lemma RenderWithoutAwaited(f: Facts, m: Message)
    requires Coherent(f) && m.msgId in f.byRow && !HasId(f.rows, m.msgId)
    ensures forall s :: s in f.sends ==> s.clientMsgId.Some?
    ensures WithoutId(Render(f), m.msgId) ==
            RenderRows(f, f.rows) + RenderSends(f.(rows := f.rows + [m]), f.sends)
  {
    WithoutIdAppend(RenderRows(f, f.rows), RenderSends(f, f.sends), m.msgId);
    RenderRowsLackId(f, m.msgId);
    AwaitedSendSettles(f, m);
  }

  lemma RenderWithAwaitedRow(f: Facts, m: Message)
    requires Coherent(f) && m.msgId in f.byRow && m.number.Some? && !HasId(f.rows, m.msgId)
    ensures forall s :: s in f.sends ==> s.clientMsgId.Some?
    ensures Render(f.(rows := f.rows + [m])) == Insert(WithoutId(Render(f), m.msgId), Accept(m, f.byRow[m.msgId]))
  {
    var g := f.(rows := f.rows + [m]);
    RenderWithoutAwaited(f, m);
    RenderSendsProvisional(g, f.sends);
    InsertIntoRendering(f, RenderSends(g, f.sends), Accept(m, f.byRow[m.msgId]));
    RenderRowsSnoc(f, m);
  }

  /** The content of an acknowledged send: its row moves to its stream position. */
  lemma AwaitedRowShows(rows: seq<Message>, f: Facts, m: Message)
    requires Shows(rows, f) && Legal(f, Stream(m)) && m.number.Some?
    requires !HasId(f.rows, m.msgId) && m.msgId in f.byRow
    ensures Shows(Apply(rows, Stream(m)), Learn(f, Stream(m)))
  {
    var row := Accept(m, f.byRow[m.msgId]);
    var rest := WithoutId(rows, m.msgId);
    LearnStreamCoherent(f, m);
    AwaitedRowIsFound(rows, f, m);
    WithoutIdMembers(rows, m.msgId);
    InsertMembers(rest, row);
    assert Visible(Insert(rest, row)) == Render(f.(rows := f.rows + [m])) by {
      VisibleInsert(rest, row);
      VisibleWithoutId(rows, m.msgId);
      RenderWithAwaitedRow(f, m);
    }
  }

  lemma AwaitedSendSettles(f: Facts, m: Message)
    requires Coherent(f) && m.msgId in f.byRow
    ensures forall s :: s in f.sends ==> s.clientMsgId.Some?
    ensures RenderSends(f.(rows := f.rows + [m]), f.sends) == WithoutId(RenderSends(f, f.sends), m.msgId)
  {
    var g := f.(rows := f.rows + [m]);
    var c := f.byRow[m.msgId];
    forall s | s in f.sends
      ensures s.clientMsgId.Some? && RenderSend(g, s) == WithoutId(RenderSend(f, s), m.msgId)
    {
      SettledAfterRow(f, m, s);
      RenderSendShape(f, s);
      var d := s.clientMsgId.value;
      UserIdInjective(f.acked[c], if d in f.acked then f.acked[d] else 0);
      if RenderSend(f, s) != [] {
        assert RenderSend(f, s) == [RenderSend(f, s)[0]] && RenderSend(f, s)[1..] == [];
      }
    }
    RenderSendsWithout(f, g, f.sends, m.msgId);
  }

  // Receipts for messages sent here

  lemma AckSettledSend(f: Facts, c: string, q: nat, s: Message)
    requires Coherent(f) && Legal(f, Ack(c, q)) && c in SentIds(f) && HasId(f.rows, UserId(q)) && s in f.sends
    ensures RenderSend(Learn(f, Ack(c, q)), s) == WithoutId(RenderSend(f, s), PendingId(c))
    ensures forall x :: x in RenderSend(Learn(f, Ack(c, q)), s) ==> x.msgId != UserId(q)
  {
    var d := s.clientMsgId.value;
    RenderSendShape(f, s);
    PendingIdInjective(c, d);
    UserIdInjective(q, if d in f.acked then f.acked[d] else 0);
    if RenderSend(f, s) != [] {
      assert RenderSend(f, s) == [RenderSend(f, s)[0]] && RenderSend(f, s)[1..] == [];
    }
  }

  lemma AckSettledSends(f: Facts, c: string, q: nat)
    requires Coherent(f) && Legal(f, Ack(c, q)) && c in SentIds(f) && HasId(f.rows, UserId(q))
    ensures forall s :: s in f.sends ==> s.clientMsgId.Some?
    ensures RenderSends(Learn(f, Ack(c, q)), f.sends) == WithoutId(RenderSends(f, f.sends), PendingId(c))
    ensures !HasId(RenderSends(Learn(f, Ack(c, q)), f.sends), UserId(q))
  {
    var g := Learn(f, Ack(c, q));
    forall s | s in f.sends
      ensures RenderSend(g, s) == WithoutId(RenderSend(f, s), PendingId(c))
      ensures forall x :: x in RenderSend(g, s) ==> x.msgId != UserId(q)
    {
      AckSettledSend(f, c, q, s);
    }
    RenderSendsWithout(f, g, f.sends, PendingId(c));
    RenderSendsMembers(g, f.sends);
  }

  lemma MapLeavesAlone(rows: seq<Message>, h: Message -> Message)
    requires forall m :: m in rows ==> h(m) == m
    ensures Map(rows, h) == rows
  {
    assert forall k :: 0 <= k < |rows| ==> rows[k] in rows;
  }

  lemma MapAppend(a: seq<Message>, b: seq<Message>, h: Message -> Message)
    ensures Map(a + b, h) == Map(a, h) + Map(b, h)
  {
  }

  /** A receipt whose echo is shown marks that row, whoever sent it. */
  lemma MarkedRow(f: Facts, c: string, q: nat, m: Message)
    requires Coherent(f) && Legal(f, Ack(c, q)) && HasId(f.rows, UserId(q))
    ensures RenderRow(Learn(f, Ack(c, q)), m) == AcceptIfReal(RenderRow(f, m), c, q)
  {
    if c !in SentIds(f) {
      assert UserId(q) !in f.byRow;
    }
  }

  lemma MarkedRows(f: Facts, c: string, q: nat, h: Message -> Message)
    requires Coherent(f) && Legal(f, Ack(c, q)) && HasId(f.rows, UserId(q))
    requires forall m: Message :: h(m) == AcceptIfReal(m, c, q)
    ensures RenderRows(Learn(f, Ack(c, q)), f.rows) == Map(RenderRows(f, f.rows), h)
  {
    forall k | 0 <= k < |f.rows|
      ensures RenderRow(Learn(f, Ack(c, q)), f.rows[k]) == h(RenderRow(f, f.rows[k]))
    {
      MarkedRow(f, c, q, f.rows[k]);
    }
  }

  lemma RenderAfterLateAck(f: Facts, c: string, q: nat, h: Message -> Message)
    requires Coherent(f) && Legal(f, Ack(c, q)) && c in SentIds(f) && HasId(f.rows, UserId(q))
    requires forall m :: h(m) == AcceptIfReal(m, c, q)
    ensures forall s :: s in f.sends ==> s.clientMsgId.Some?
    ensures Render(Learn(f, Ack(c, q))) == Map(WithoutId(Render(f), PendingId(c)), h)
  {
    var g := Learn(f, Ack(c, q));
    var front, tail := RenderRows(f, f.rows), RenderSends(f, f.sends);
    AckSettledSends(f, c, q);
    assert WithoutId(front + tail, PendingId(c)) == front + RenderSends(g, f.sends) by {
      WithoutIdAppend(front, tail, PendingId(c));
      RenderRowsLackId(f, PendingId(c));
    }
    MapAppend(front, RenderSends(g, f.sends), h);
    MapLeavesAlone(RenderSends(g, f.sends), h);
    MarkedRows(f, c, q, h);
  }

  /** The content arrived first: the receipt marks it and drops the pending row. */
  lemma LateAckStep(rows: seq<Message>, f: Facts, c: string, q: nat, h: Message -> Message)
    requires Shows(rows, f) && Legal(f, Ack(c, q)) && c in SentIds(f) && HasId(f.rows, UserId(q))
    requires forall m :: h(m) == AcceptIfReal(m, c, q)
    ensures Apply(rows, Ack(c, q)) == Map(WithoutId(rows, PendingId(c)), h)
  {
    FindShown(rows, f, UserId(q));
    assert Apply(rows, Ack(c, q)) == Map(WithoutId(rows, PendingId(c)), (m: Message) => AcceptIfReal(m, c, q));
  }

  /** Marking rows that stay visible, after dropping one, commutes with what is visible. */
  lemma VisibleWithoutIdMapped(rows: seq<Message>, id: string, h: Message -> Message)
    requires forall m :: m in rows ==> (Shown(h(m)) <==> Shown(m))
    ensures Visible(Map(WithoutId(rows, id), h)) == Map(WithoutId(Visible(rows), id), h)
    ensures forall m :: m in Map(WithoutId(rows, id), h) ==> exists x :: x in rows && m == h(x)
  {
    WithoutIdMembers(rows, id);
    VisibleMap(WithoutId(rows, id), h);
    VisibleWithoutId(rows, id);
  }

  lemma LateAckShows(rows: seq<Message>, f: Facts, c: string, q: nat)
    requires Shows(rows, f) && Legal(f, Ack(c, q)) && c in SentIds(f) && HasId(f.rows, UserId(q))
    ensures Shows(Apply(rows, Ack(c, q)), Learn(f, Ack(c, q)))
  {
    var h := (m: Message) => AcceptIfReal(m, c, q);
    LearnAckCoherent(f, c, q);
    ReconcileKeepsUnique(rows, c, q);
    LateAckStep(rows, f, c, q, h);
    VisibleWithoutIdMapped(rows, PendingId(c), h);
    RenderAfterLateAck(f, c, q, h);
  }

  /** What an early receipt does to one row: rekeys the pending row, or re-marks the rekeyed one. */
  function AckEarly(m: Message, c: string, q: nat, repeated: bool): Message {
    if repeated then AcceptIfReal(m, c, q) else RekeyIfPending(m, c, q)
  }

  lemma AckEarlySend(f: Facts, c: string, q: nat, s: Message, h: Message -> Message)
    requires Coherent(f) && Legal(f, Ack(c, q)) && c in SentIds(f) && !HasId(f.rows, UserId(q)) && s in f.sends
    requires forall m: Message :: h(m) == AckEarly(m, c, q, c in f.acked)
    ensures RenderSend(Learn(f, Ack(c, q)), s) == Map(RenderSend(f, s), h)
  {
    var d := s.clientMsgId.value;
    RenderSendShape(f, s);
    PendingIdInjective(c, d);
    UserIdInjective(q, if d in f.acked then f.acked[d] else 0);
  }

  lemma AckEarlyRows(f: Facts, c: string, q: nat, h: Message -> Message)
    requires Coherent(f) && Legal(f, Ack(c, q)) && c in SentIds(f) && !HasId(f.rows, UserId(q))
    requires forall m: Message :: h(m) == AckEarly(m, c, q, c in f.acked)
    ensures RenderRows(Learn(f, Ack(c, q)), f.rows) == Map(RenderRows(f, f.rows), h)
  {
    forall k | 0 <= k < |f.rows|
      ensures RenderRow(Learn(f, Ack(c, q)), f.rows[k]) == h(RenderRow(f, f.rows[k]))
    {
      assert f.rows[k] in f.rows;
    }
  }

  lemma RenderAfterEarlyAck(f: Facts, c: string, q: nat, h: Message -> Message)
    requires Coherent(f) && Legal(f, Ack(c, q)) && c in SentIds(f) && !HasId(f.rows, UserId(q))
    requires forall m: Message :: h(m) == AckEarly(m, c, q, c in f.acked)
    ensures forall s :: s in f.sends ==> s.clientMsgId.Some?
    ensures Render(Learn(f, Ack(c, q))) == Map(Render(f), h)
  {
    var g := Learn(f, Ack(c, q));
    forall s | s in f.sends ensures RenderSend(g, s) == Map(RenderSend(f, s), h) {
      AckEarlySend(f, c, q, s, h);
    }
    RenderSendsMapped(f, g, f.sends, h);
    AckEarlyRows(f, c, q, h);
    MapAppend(RenderRows(f, f.rows), RenderSends(f, f.sends), h);
  }

  /** The receipt comes first: the pending row is rekeyed and awaits its content; a repeat changes nothing. */
  lemma EarlyAckShows(rows: seq<Message>, f: Facts, c: string, q: nat)
    requires Shows(rows, f) && Legal(f, Ack(c, q)) && c in SentIds(f) && !HasId(f.rows, UserId(q))
    ensures Shows(Apply(rows, Ack(c, q)), Learn(f, Ack(c, q)))
  {
    var repeated := c in f.acked;
    var h := (m: Message) => AckEarly(m, c, q, repeated);
    LearnAckCoherent(f, c, q);
    ReconcileKeepsUnique(rows, c, q);
    EarlyAckForm(rows, f, c, q, h);
    AckEarlyKeepsShown(rows, f, c, q, h);
    VisibleMap(rows, h);
    RenderAfterEarlyAck(f, c, q, h);
  }

  lemma AckEarlyKeepsShown(rows: seq<Message>, f: Facts, c: string, q: nat, h: Message -> Message)
    requires Shows(rows, f) && Legal(f, Ack(c, q))
    requires forall m: Message :: h(m) == AckEarly(m, c, q, c in f.acked)
    ensures forall m :: m in rows ==> (Shown(h(m)) <==> Shown(m)) && (!Shown(m) ==> h(m) == m)
    ensures forall m :: m in Map(rows, h) && !Shown(m) ==> m in rows
  {
  }

  lemma EarlyAckForm(rows: seq<Message>, f: Facts, c: string, q: nat, h: Message -> Message)
    requires Shows(rows, f) && Legal(f, Ack(c, q)) && c in SentIds(f) && !HasId(f.rows, UserId(q))
    requires forall m: Message :: h(m) == AckEarly(m, c, q, c in f.acked)
    ensures Apply(rows, Ack(c, q)) == Map(rows, h)
  {
    FindShown(rows, f, UserId(q));
    if c in f.acked {
      var _ := RekeyedRow(f, c);
      AckedHasNoPending(rows, f, c);
      WithoutAbsentId(rows, PendingId(c));
    } else {
      UnackedIsNotRendered(f, c, q);
    }
  }

  /** An acknowledged send without content is shown under its number. */
  lemma RekeyedRow(f: Facts, c: string) returns (m: Message)
    requires Coherent(f) && c in f.acked && !HasId(f.rows, UserId(f.acked[c]))
    ensures m in RenderSends(f, f.sends) && m.msgId == UserId(f.acked[c]) && AwaitsContent(m)
    ensures m.clientMsgId == Some(c) && m.deliveryUnknown == Some(false)
  {
    var s := SendOf(f, c);
    m := Rekey(s, f.acked[c]);
    assert RenderSend(f, s) == [m] && m in RenderSend(f, s);
    RenderSendsMembers(f, f.sends);
  }

  lemma UnackedIsNotRendered(f: Facts, c: string, q: nat)
    requires Coherent(f) && Legal(f, Ack(c, q)) && c !in f.acked
    ensures !HasId(RenderSends(f, f.sends), UserId(q))
  {
    forall x | x in RenderSends(f, f.sends) ensures x.msgId != UserId(q) {
      var y := SendOfRow(f, x);
      PendingIdInjective(y.clientMsgId.value, c);
      UserIdInjective(q, if y.clientMsgId.value in f.acked then f.acked[y.clientMsgId.value] else 0);
    }
  }

  lemma AckedHasNoPending(rows: seq<Message>, f: Facts, c: string)
    requires Shows(rows, f) && c in f.acked
    ensures !HasId(rows, PendingId(c))
  {
    if HasId(rows, PendingId(c)) {
      PendingRowIsUnacked(rows, f, c);
    }
  }

  // Receipts for messages not sent here

  lemma ForeignAckIsUnrendered(f: Facts, c: string, q: nat)
    requires Coherent(f) && Legal(f, Ack(c, q)) && c !in SentIds(f) && UserId(q) !in f.byRow
    ensures !HasId(RenderSends(f, f.sends), UserId(q))
  {
    forall x | x in RenderSends(f, f.sends) ensures x.msgId != UserId(q) {
      var y := SendOfRow(f, x);
      PendingIdInjective(y.clientMsgId.value, c);
      UserIdInjective(q, q);
    }
  }

  lemma LearnForeignAckCoherent(f: Facts, c: string, q: nat)
    requires Coherent(f) && c !in SentIds(f)
    ensures Coherent(Learn(f, Ack(c, q)))
  {
    var g := Learn(f, Ack(c, q));
    assert SentIds(g) == SentIds(f);
    assert forall id :: id in g.marked ==> id in f.marked || (id == UserId(q) && HasId(f.rows, id));
  }

  lemma RenderAfterForeignAck(f: Facts, c: string, q: nat, h: Message -> Message)
    requires Coherent(f) && Legal(f, Ack(c, q)) && c !in SentIds(f) && HasId(f.rows, UserId(q))
    requires forall m: Message :: h(m) == AcceptIfReal(m, c, q)
    ensures forall s :: s in f.sends ==> s.clientMsgId.Some?
    ensures Render(Learn(f, Ack(c, q))) == Map(Render(f), h)
  {
    var g := Learn(f, Ack(c, q));
    ForeignAckIsUnrendered(f, c, q);
    MarkedRows(f, c, q, h);
    RenderSendsAgree(f, g, f.sends);
    MapLeavesAlone(RenderSends(f, f.sends), h);
    MapAppend(RenderRows(f, f.rows), RenderSends(f, f.sends), h);
  }

  /** A receipt for a message not sent here marks its echo when that is shown, and is lost otherwise. */
  lemma ForeignAckStep(rows: seq<Message>, f: Facts, c: string, q: nat, h: Message -> Message)
    requires Shows(rows, f) && Legal(f, Ack(c, q)) && c !in SentIds(f)
    requires forall m: Message :: h(m) == AcceptIfReal(m, c, q)
    ensures Apply(rows, Ack(c, q)) == if HasId(f.rows, UserId(q)) then Map(rows, h) else rows
  {
    FindShown(rows, f, UserId(q));
    ForeignAckIsUnrendered(f, c, q);
    if HasId(rows, PendingId(c)) {
      PendingRowIsUnacked(rows, f, c);
    }
    WithoutAbsentId(rows, PendingId(c));
    assert forall k :: 0 <= k < |rows| ==> rows[k] in rows;
  }

  lemma ForeignAckShows(rows: seq<Message>, f: Facts, c: string, q: nat)
    requires Shows(rows, f) && Legal(f, Ack(c, q)) && c !in SentIds(f)
    ensures Shows(Apply(rows, Ack(c, q)), Learn(f, Ack(c, q)))
  {
    var h := (m: Message) => AcceptIfReal(m, c, q);
    ForeignAckStep(rows, f, c, q, h);
    if HasId(f.rows, UserId(q)) {
      LearnForeignAckCoherent(f, c, q);
      ReconcileKeepsUnique(rows, c, q);
      RenderAfterForeignAck(f, c, q, h);
      AcceptKeepsShown(rows, f, c, q, h);
      VisibleMap(rows, h);
    }
  }

  lemma AcceptKeepsShown(rows: seq<Message>, f: Facts, c: string, q: nat, h: Message -> Message)
    requires Shows(rows, f) && UserId(q) !in f.notices
    requires forall m: Message :: h(m) == AcceptIfReal(m, c, q)
    ensures forall m :: m in rows ==> (Shown(h(m)) <==> Shown(m)) && (!Shown(m) ==> h(m) == m)
    ensures forall m :: m in Map(rows, h) && !Shown(m) ==> m in rows
  {
  }

  // Failed publishes

  function DoubtIfIn(m: Message, ids: set<string>): Message {
    if m.optimistic == Some(true) && m.clientMsgId.Some? && m.clientMsgId.value in ids then Doubt(m) else m
  }

  function DoubtSends(f: Facts, ids: set<string>): Facts {
    f.(doubted := f.doubted + (ids * SentIds(f) - f.acked.Keys))
  }

  lemma DoubtOneSend(f: Facts, ids: set<string>, s: Message, h: Message -> Message)
    requires Coherent(f) && s in f.sends
    requires forall m: Message :: h(m) == DoubtIfIn(m, ids)
    ensures RenderSend(DoubtSends(f, ids), s) == Map(RenderSend(f, s), h)
  {
    RenderSendShape(f, s);
    assert s.clientMsgId.value in SentIds(f);
  }

  lemma DoubtRows(f: Facts, ids: set<string>, h: Message -> Message)
    requires Coherent(f)
    requires forall m: Message :: h(m) == DoubtIfIn(m, ids)
    ensures RenderRows(DoubtSends(f, ids), f.rows) == Map(RenderRows(f, f.rows), h)
  {
    forall k | 0 <= k < |f.rows| ensures h(RenderRow(f, f.rows[k])) == RenderRow(f, f.rows[k]) {
      assert f.rows[k] in f.rows;
    }
  }

  lemma DoubtRenders(f: Facts, ids: set<string>, h: Message -> Message)
    requires Coherent(f)
    requires forall m: Message :: h(m) == DoubtIfIn(m, ids)
    ensures Render(DoubtSends(f, ids)) == Map(Render(f), h)
  {
    var g := DoubtSends(f, ids);
    forall s | s in f.sends ensures RenderSend(g, s) == Map(RenderSend(f, s), h) {
      DoubtOneSend(f, ids, s, h);
    }
    RenderSendsMapped(f, g, f.sends, h);
    DoubtRows(f, ids, h);
    MapAppend(RenderRows(f, f.rows), RenderSends(f, f.sends), h);
  }

  lemma DoubtKeepsUnique(rows: seq<Message>, ids: set<string>, h: Message -> Message)
    requires Unique(rows)
    requires forall m: Message :: h(m) == DoubtIfIn(m, ids)
    ensures Unique(Map(rows, h))
    ensures forall m :: m in rows ==> (Shown(h(m)) <==> Shown(m))
    ensures forall m :: m in Map(rows, h) && !Shown(m) ==>
              exists r :: r in rows && !Shown(r) && r.msgId == m.msgId && (r.optimistic.None? ==> m.optimistic.None?)
  {
    forall m | m in Map(rows, h) && !Shown(m)
      ensures exists r :: r in rows && !Shown(r) && r.msgId == m.msgId && (r.optimistic.None? ==> m.optimistic.None?)
    {
      var k :| 0 <= k < |rows| && h(rows[k]) == m;
      assert rows[k] in rows;
    }
  }

  lemma DoubtShows(rows: seq<Message>, f: Facts, ids: set<string>, h: Message -> Message)
    requires Shows(rows, f)
    requires forall m: Message :: h(m) == DoubtIfIn(m, ids)
    ensures Shows(Map(rows, h), DoubtSends(f, ids))
  {
    assert SentIds(DoubtSends(f, ids)) == SentIds(f);
    DoubtRenders(f, ids, h);
    DoubtKeepsUnique(rows, ids, h);
    VisibleMap(rows, h);
  }

  lemma UnknownShows(rows: seq<Message>, f: Facts, c: string)
    requires Shows(rows, f)
    ensures Shows(Apply(rows, Unknown(c)), Learn(f, Unknown(c)))
  {
    var h := (m: Message) => DoubtIfIn(m, {c});
    DoubtShows(rows, f, {c}, h);
    assert Map(rows, h) == Apply(rows, Unknown(c));
  }

  lemma LocalRowsAreSends(rows: seq<Message>, f: Facts, m: Message)
    requires Shows(rows, f) && m in rows && m.optimistic == Some(true)
    ensures m.clientMsgId.Some? && m.clientMsgId.value in SentIds(f)
  {
    ShownMembers(rows, f);
    forall k | 0 <= k < |f.rows| ensures RenderRow(f, f.rows[k]).optimistic != Some(true) {
      assert f.rows[k] in f.rows;
    }
    var s := SendOfRow(f, m);
    RenderSendShape(f, s);
  }

  lemma AllUnknownShows(rows: seq<Message>, f: Facts)
    requires Shows(rows, f)
    ensures Shows(Apply(rows, AllUnknown), Learn(f, AllUnknown))
  {
    var ids := SentIds(f);
    var h := (m: Message) => DoubtIfIn(m, ids);
    DoubtShows(rows, f, ids, h);
    forall k | 0 <= k < |rows| ensures h(rows[k]) == DoubtIfLocal(rows[k]) {
      if rows[k].optimistic == Some(true) {
        LocalRowsAreSends(rows, f, rows[k]);
      }
    }
    assert Map(rows, h) == Apply(rows, AllUnknown);
    assert ids * ids == ids;
  }

  lemma ApplyShows(rows: seq<Message>, f: Facts, e: Event)
    requires Shows(rows, f) && Legal(f, e)
    ensures Shows(Apply(rows, e), Learn(f, e))
  {
    match e
    case Send(c, text, staged) => SendShows(rows, f, c, text, staged);
    case Stream(m) =>
      if m.number.None? {
        NoticeShows(rows, f, m);
      } else if HasId(f.rows, m.msgId) {
        RepeatedRowShows(rows, f, m);
      } else if m.msgId in f.byRow {
        AwaitedRowShows(rows, f, m);
      } else {
        FreshRowShows(rows, f, m);
      }
    case Ack(c, q) =>
      if c !in SentIds(f) {
        ForeignAckShows(rows, f, c, q);
      } else if HasId(f.rows, UserId(q)) {
        LateAckShows(rows, f, c, q);
      } else {
        EarlyAckShows(rows, f, c, q);
      }
    case Unknown(c) => UnknownShows(rows, f, c);
    case AllUnknown => AllUnknownShows(rows, f);
  }

  lemma {:induction false} HistoryShows(events: seq<Event>)
    requires LegalHistory(events)
    ensures Shows(Rows(events), FactsOf(events))
  {
    if events != [] {
      var init := events[..|events| - 1];
      forall i | 0 <= i < |init| ensures Legal(FactsOf(init[..i]), init[i]) {
        assert init[..i] == events[..i];
      }
      HistoryShows(init);
      ApplyShows(Rows(init), FactsOf(init), events[|events| - 1]);
    }
  }

  // ---------------------------------------------------------------------------------------------
  // Main results
  // ---------------------------------------------------------------------------------------------

  /**
   * The page is a function of the facts: the numbered rows in order of first arrival, each marked by
   * its receipt, then this browser's rows without content in order of sending.
   */
  lemma RowsAreRendered(events: seq<Event>)
    requires LegalHistory(events)
    ensures forall s :: s in FactsOf(events).sends ==> s.clientMsgId.Some?
    ensures Visible(Rows(events)) == Render(FactsOf(events))
  {
    HistoryShows(events);
  }

  /** The receipt at `i` is for a message not sent here, and its echo is in the stream by then. */
  predicate Marks(events: seq<Event>, i: nat, id: string)
    requires i < |events|
  {
    && events[i].Ack? && UserId(events[i].q) == id
    && events[i].c !in SentIds(FactsOf(events[..i])) && HasId(FactsOf(events[..i]).rows, id)
  }

  predicate LastMarkAt(events: seq<Event>, i: nat, id: string)
    requires i < |events|
  {
    Marks(events, i, id) && forall j :: i < j < |events| ==> !Marks(events, j, id)
  }

  /** `c` is the client id of the last such receipt for the row `id`. */
  ghost predicate LastMark(events: seq<Event>, id: string, c: string) {
    exists i :: 0 <= i < |events| && LastMarkAt(events, i, id) && events[i].c == c
  }

  /** The publish of `c` failed after it was sent and before it was acknowledged. */
  predicate Fails(events: seq<Event>, i: nat, c: string)
    requires i < |events|
  {
    && (events[i] == Unknown(c) || events[i] == AllUnknown)
    && c in SentIds(FactsOf(events[..i])) && c !in FactsOf(events[..i]).acked
  }

  ghost predicate Failed(events: seq<Event>, c: string) {
    exists i :: 0 <= i < |events| && Fails(events, i, c)
  }

  lemma {:induction false} MarkedIsLastMark(events: seq<Event>, id: string, c: string)
    ensures (id in FactsOf(events).marked && FactsOf(events).marked[id] == c) <==> LastMark(events, id, c)
  {
    if events != [] {
      var n := |events| - 1;
      MarkedIsLastMark(events[..n], id, c);
      if Marks(events, n, id) {
        LastMarkAtEnd(events, id, c);
      } else {
        LastMarkAfterOther(events, id, c);
        assert id in FactsOf(events).marked <==> id in FactsOf(events[..n]).marked;
      }
    }
  }

  lemma LastMarkAtEnd(events: seq<Event>, id: string, c: string)
    requires events != [] && Marks(events, |events| - 1, id)
    ensures LastMark(events, id, c) <==> events[|events| - 1].c == c
  {
    var n := |events| - 1;
    assert LastMarkAt(events, n, id);
    assert forall i :: 0 <= i < n ==> !LastMarkAt(events, i, id);
  }

  lemma LastMarkInPrefix(events: seq<Event>, id: string)
    requires events != [] && !Marks(events, |events| - 1, id)
    ensures forall i :: 0 <= i < |events| - 1 ==>
              (LastMarkAt(events[..|events| - 1], i, id) <==> LastMarkAt(events, i, id))
    ensures !LastMarkAt(events, |events| - 1, id)
  {
    var n := |events| - 1;
    var init := events[..n];
    forall i | 0 <= i < n ensures Marks(init, i, id) <==> Marks(events, i, id) {
      assert init[..i] == events[..i] && init[i] == events[i];
    }
  }

  lemma LastMarkAfterOther(events: seq<Event>, id: string, c: string)
    requires events != [] && !Marks(events, |events| - 1, id)
    ensures LastMark(events, id, c) <==> LastMark(events[..|events| - 1], id, c)
  {
    var n := |events| - 1;
    var init := events[..n];
    LastMarkInPrefix(events, id);
    if LastMark(init, id, c) {
      var i :| 0 <= i < n && LastMarkAt(init, i, id) && init[i].c == c;
      assert LastMarkAt(events, i, id);
    }
  }

  lemma {:induction false} DoubtedIsFailed(events: seq<Event>, c: string)
    ensures c in FactsOf(events).doubted <==> Failed(events, c)
  {
    if events != [] {
      DoubtedIsFailed(events[..|events| - 1], c);
      FailedInPrefix(events, c);
    }
  }

  lemma FailedInPrefix(events: seq<Event>, c: string)
    requires events != []
    ensures Failed(events, c) <==> Failed(events[..|events| - 1], c) || Fails(events, |events| - 1, c)
  {
    var init := events[..|events| - 1];
    forall i | 0 <= i < |init| ensures Fails(init, i, c) <==> Fails(events, i, c) {
      assert init[..i] == events[..i] && init[i] == events[i];
    }
  }

  /**
   * Confluence, exactly: two legal histories with the same first-arrival order of stream rows, the same
   * sends and the same receipts for them show the same rows, however sends, echoes, receipts and
   * repeats interleave, if and only if the last receipt from elsewhere to follow its echo agrees on
   * every row no send here accounts for, and the same unacknowledged sends have failed.
   */
  lemma InterleavingsAgreeIff(events: seq<Event>, events': seq<Event>)
    requires LegalHistory(events) && LegalHistory(events')
    requires FactsOf(events).rows == FactsOf(events').rows && FactsOf(events).sends == FactsOf(events').sends
    requires FactsOf(events).acked == FactsOf(events').acked
    ensures Visible(Rows(events)) == Visible(Rows(events')) <==>
            && (forall id, c :: id !in FactsOf(events).byRow
                                ==> (LastMark(events, id, c) <==> LastMark(events', id, c)))
            && (forall c :: c in SentIds(FactsOf(events)) && c !in FactsOf(events).acked
                            ==> (Failed(events, c) <==> Failed(events', c)))
  {
    var f, g := FactsOf(events), FactsOf(events');
    HistoryShows(events);
    HistoryShows(events');
    ReceiptsDetermineRows(f, g);
    RendersAgreeIff(f, g);
    MarksAgreeIff(events, events');
    forall c ensures (c in f.doubted <==> Failed(events, c)) && (c in g.doubted <==> Failed(events', c)) {
      DoubtedIsFailed(events, c);
      DoubtedIsFailed(events', c);
    }
  }

  ghost predicate SameSenders(f: Facts, g: Facts) {
    forall id :: Sender(f, id) == Sender(g, id)
  }

  ghost predicate SameDoubts(f: Facts, g: Facts) {
    forall c :: c in SentIds(f) && c !in f.acked ==> (c in f.doubted <==> c in g.doubted)
  }

  lemma MarksAgreeIff(events: seq<Event>, events': seq<Event>)
    requires FactsOf(events).byRow == FactsOf(events').byRow
    ensures SameSenders(FactsOf(events), FactsOf(events')) <==>
            forall id, c :: id !in FactsOf(events).byRow
                            ==> (LastMark(events, id, c) <==> LastMark(events', id, c))
  {
    var f, g := FactsOf(events), FactsOf(events');
    forall id, c | id !in f.byRow
      ensures (LastMark(events, id, c) <==> Sender(f, id) == Some(c))
              && (LastMark(events', id, c) <==> Sender(g, id) == Some(c))
    {
      MarkedIsLastMark(events, id, c);
      MarkedIsLastMark(events', id, c);
    }
    if forall id, c :: id !in f.byRow ==> (LastMark(events, id, c) <==> LastMark(events', id, c)) {
      forall id ensures Sender(f, id) == Sender(g, id) {
        if id !in f.byRow {
          if Sender(f, id).Some? {
            assert LastMark(events, id, Sender(f, id).value);
          } else if Sender(g, id).Some? {
            assert LastMark(events', id, Sender(g, id).value);
          }
        }
      }
    }
  }

  lemma RendersAgreeIff(f: Facts, g: Facts)
    requires Coherent(f) && Coherent(g)
    requires f.rows == g.rows && f.sends == g.sends && f.acked == g.acked && f.byRow == g.byRow
    ensures Render(f) == Render(g) <==> SameSenders(f, g) && SameDoubts(f, g)
  {
    RenderedSendsAgreeIff(f, g, f.sends);
    var a, b := RenderRows(f, f.rows), RenderRows(g, g.rows);
    var x, y := RenderSends(f, f.sends), RenderSends(g, g.sends);
    assert Render(f)[..|a|] == a && Render(f)[|a|..] == x;
    assert Render(g)[..|b|] == b && Render(g)[|b|..] == y;
    RenderedRowsAgreeIff(f, g);
    DoubtsAgreeIff(f, g);
  }

  lemma RenderedRowsAgreeIff(f: Facts, g: Facts)
    requires Coherent(f) && Coherent(g) && f.rows == g.rows && f.byRow == g.byRow
    ensures RenderRows(f, f.rows) == RenderRows(g, g.rows) <==> SameSenders(f, g)
  {
    if RenderRows(f, f.rows) == RenderRows(g, g.rows) {
      forall id ensures Sender(f, id) == Sender(g, id) {
        if id !in f.byRow && (id in f.marked || id in g.marked) {
          var x :| x in f.rows && x.msgId == id;
          var k :| 0 <= k < |f.rows| && f.rows[k] == x;
          assert RenderRow(f, x) == RenderRows(f, f.rows)[k] == RenderRows(g, g.rows)[k] == RenderRow(g, x);
          assert IsStreamRow(x);
        }
      }
    }
  }

  lemma {:induction false} RenderedSendsAgreeIff(f: Facts, g: Facts, sends: seq<Message>)
    requires f.rows == g.rows && f.acked == g.acked
    requires forall s :: s in sends ==> s.clientMsgId.Some?
    ensures RenderSends(f, sends) == RenderSends(g, sends) <==>
            forall s :: s in sends ==> RenderSend(f, s) == RenderSend(g, s)
  {
    if sends != [] {
      var x, y := RenderSend(f, sends[0]), RenderSend(g, sends[0]);
      RenderedSendsAgreeIff(f, g, sends[1..]);
      assert |x| == |y|;
      assert RenderSends(f, sends)[..|x|] == x && RenderSends(f, sends)[|x|..] == RenderSends(f, sends[1..]);
      assert RenderSends(g, sends)[..|y|] == y && RenderSends(g, sends)[|y|..] == RenderSends(g, sends[1..]);
      assert forall s :: s in sends <==> s == sends[0] || s in sends[1..];
    }
  }

  lemma DoubtsAgreeIff(f: Facts, g: Facts)
    requires Coherent(f) && Coherent(g) && f.rows == g.rows && f.sends == g.sends && f.acked == g.acked
    ensures SameDoubts(f, g) <==> forall s :: s in f.sends ==> RenderSend(f, s) == RenderSend(g, s)
  {
    forall s | s in f.sends
      ensures RenderSend(f, s) == RenderSend(g, s) <==>
              (var c := s.clientMsgId.value; c in f.acked || (c in f.doubted <==> c in g.doubted))
    {
      assert IsSend(s);
      assert Doubt(s) != s;
    }
    forall c | c in SentIds(f) ensures exists s :: s in f.sends && s.clientMsgId == Some(c) {
      var s := SendOf(f, c);
    }
  }

  lemma ReceiptsDetermineRows(f: Facts, g: Facts)
    requires Coherent(f) && Coherent(g) && f.acked == g.acked
    ensures f.byRow == g.byRow
  {
    forall id | id in f.byRow ensures id in g.byRow && g.byRow[id] == f.byRow[id] {
      assert f.byRow[id] in g.acked;
    }
    forall id | id in g.byRow ensures id in f.byRow {
      assert g.byRow[id] in f.acked;
    }
  }

  /**
   * One stream row is exactly one row of the page, however often it came, and stands as its sender's
   * receipt left it: the first echo's text and number, accepted and in no doubt once there was one.
   */
  lemma EveryEchoIsOneRow(events: seq<Event>, echo: Message)
    requires LegalHistory(events) && echo in FactsOf(events).rows
    ensures RenderRow(FactsOf(events), echo) in Rows(events)
    ensures forall m :: m in Rows(events) && m.msgId == echo.msgId ==> m == RenderRow(FactsOf(events), echo)
  {
    var f, rows := FactsOf(events), Rows(events);
    var row := RenderRow(f, echo);
    HistoryShows(events);
    ShownMembers(rows, f);
    var k :| 0 <= k < |f.rows| && f.rows[k] == echo;
    assert RenderRows(f, f.rows)[k] == row;
    assert row in RenderRows(f, f.rows);
    FindUnique(rows, row);
    forall m | m in rows && m.msgId == echo.msgId ensures m == row {
      FindUnique(rows, m);
    }
  }

  /**
   * One sent message whose echo and receipt have both arrived, in whatever order and however often,
   * is exactly one row: the first echo's text and number, accepted, and in no doubt.
   */
  lemma OneCanonicalRow(events: seq<Event>, c: string, q: nat, echo: Message)
    requires LegalHistory(events)
    requires c in FactsOf(events).acked && FactsOf(events).acked[c] == q
    requires echo in FactsOf(events).rows && echo.msgId == UserId(q)
    ensures Accept(echo, c) in Rows(events)
    ensures forall m :: m in Rows(events) && (m.msgId == UserId(q) || m.msgId == PendingId(c)) ==> m == Accept(echo, c)
  {
    HistoryShows(events);
    EveryEchoIsOneRow(events, echo);
    AckedHasNoPending(Rows(events), FactsOf(events), c);
  }

  /** Numbered rows keep stream order and stand ahead of every row that still waits for content. */
  lemma StreamOrderIsKept(events: seq<Event>)
    requires LegalHistory(events)
    ensures var rows, stream := Visible(Rows(events)), FactsOf(events).rows;
            && |stream| <= |rows|
            && (forall i :: 0 <= i < |stream| ==>
                  rows[i].number == stream[i].number && rows[i].msgId == stream[i].msgId && rows[i].text == stream[i].text)
            && (forall i :: |stream| <= i < |rows| ==> Provisional(rows[i]))
  {
    var f := FactsOf(events);
    HistoryShows(events);
    RenderSendsProvisional(f, f.sends);
    var tail := RenderSends(f, f.sends);
    assert forall i :: 0 <= i < |tail| ==> tail[i] in tail;
  }

  /**
   * An accepted row is never in doubt again and never lost, whatever legal event follows, and changes
   * its sender only for a later receipt with its number.
   */
  lemma AcceptedNeverRegresses(events: seq<Event>, e: Event, m: Message)
    requires LegalHistory(events + [e])
    requires m in Rows(events) && m.optimistic == Some(false)
    ensures var sender := if e.Ack? && UserId(e.q) == m.msgId then Some(e.c) else m.clientMsgId;
            exists m' :: m' in Apply(Rows(events), e) && m'.msgId == m.msgId && m'.optimistic == Some(false)
                         && m'.clientMsgId == sender && m'.deliveryUnknown == Some(false)
  {
    var f, g := FactsOf(events), Learn(FactsOf(events), e);
    LegalPrefix(events, e);
    HistoryShows(events);
    ApplyShows(Rows(events), f, e);
    AcceptedIsFiled(Rows(events), f, m);
    FiledStaysFiled(f, e, m.msgId);
    FiledIsShown(Apply(Rows(events), e), g, m.msgId);
  }

  lemma LegalPrefix(events: seq<Event>, e: Event)
    requires LegalHistory(events + [e])
    ensures LegalHistory(events) && Legal(FactsOf(events), e)
  {
    var all := events + [e];
    assert all[..|events|] == events && all[|events|] == e;
    forall i | 0 <= i < |events| ensures Legal(FactsOf(events[..i]), events[i]) {
      assert all[..i] == events[..i] && all[i] == events[i];
    }
  }

  lemma FiledStaysFiled(f: Facts, e: Event, id: string)
    requires Coherent(f) && Legal(f, e) && Sender(f, id).Some?
    ensures Sender(Learn(f, e), id) == if e.Ack? && UserId(e.q) == id then Some(e.c) else Sender(f, id)
  {
    if e.Ack? && UserId(e.q) == id && e.c !in SentIds(f) {
      assert id !in f.byRow;
    }
  }

  lemma AcceptedIsFiled(rows: seq<Message>, f: Facts, m: Message)
    requires Shows(rows, f) && m in rows && m.optimistic == Some(false)
    ensures Sender(f, m.msgId).Some? && m.clientMsgId == Sender(f, m.msgId) && m.deliveryUnknown == Some(false)
  {
    ShownMembers(rows, f);
    if m in RenderRows(f, f.rows) {
      var k :| 0 <= k < |f.rows| && RenderRow(f, f.rows[k]) == m;
      assert f.rows[k] in f.rows;
    } else {
      AcceptedSendIsFiled(f, m);
    }
  }

  lemma AcceptedSendIsFiled(f: Facts, m: Message)
    requires Coherent(f) && m in RenderSends(f, f.sends) && m.optimistic == Some(false)
    ensures m.msgId in f.byRow && m.clientMsgId == Some(f.byRow[m.msgId]) && m.deliveryUnknown == Some(false)
  {
    var s := SendOfRow(f, m);
    RenderSendShape(f, s);
  }

  lemma FiledIsShown(rows: seq<Message>, f: Facts, id: string)
    requires Shows(rows, f) && Sender(f, id).Some?
    ensures exists m :: m in rows && m.msgId == id && m.optimistic == Some(false)
                        && m.clientMsgId == Sender(f, id) && m.deliveryUnknown == Some(false)
  {
    var c := Sender(f, id).value;
    ShownMembers(rows, f);
    if HasId(f.rows, id) {
      var x :| x in f.rows && x.msgId == id;
      var k :| 0 <= k < |f.rows| && f.rows[k] == x;
      assert RenderRows(f, f.rows)[k] == Accept(x, c);
      assert Accept(x, c) in rows;
    } else {
      assert id in f.byRow;
      var m := RekeyedRow(f, c);
      assert m in rows;
    }
  }

  /**
   * Where confluence ends: a receipt for a message this page never sent marks an echo that is already
   * shown and is lost when it comes first. Both histories are legal and establish the same rows.
   */
  lemma ForeignReceiptDependsOnOrder(echo: Message, c: string, q: nat)
    requires IsStreamRow(echo) && echo.msgId == UserId(q)
    ensures LegalHistory([Stream(echo), Ack(c, q)]) && LegalHistory([Ack(c, q), Stream(echo)])
    ensures FactsOf([Stream(echo), Ack(c, q)]).rows == FactsOf([Ack(c, q), Stream(echo)]).rows == [echo]
    ensures Rows([Stream(echo), Ack(c, q)]) == [Accept(echo, c)]
    ensures Rows([Ack(c, q), Stream(echo)]) == [echo]
  {
    var a, b := [Stream(echo), Ack(c, q)], [Ack(c, q), Stream(echo)];
    assert a[..1] == [Stream(echo)] && b[..1] == [Ack(c, q)];
    assert [Stream(echo)][..0] == [] && [Ack(c, q)][..0] == [] && a[..0] == [] && b[..0] == [];
    assert Rows([Stream(echo)]) == [echo];
    UserIdInjective(q, q);
    PendingIdInjective(c, c);
    assert WithoutId([echo], PendingId(c)) == [echo];
    assert Rows([Ack(c, q)]) == [];
    assert FactsOf(a[..0]) == NONE && FactsOf(b[..0]) == NONE && FactsOf(b[..1]) == NONE;
    assert FactsOf(a[..1]) == NONE.(rows := [echo]);
    assert echo in [echo];
  }
}
