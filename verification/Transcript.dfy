/**
 * The web page's transcript reducers: stream rows merged with optimistic local rows
 * (apps/web/app/page.tsx).
 */
module Transcript {
  import opened Common

  /** `number` is the row's `seq`; None is JavaScript's null (or undefined for the optional fields). */
  datatype Message = Message(
    kind: string,
    number: Option<nat>,
    text: string,
    msgId: string,
    clientMsgId: Option<string>,
    optimistic: Option<bool>,
    deliveryUnknown: Option<bool>)

  function UserId(q: nat): string { "user-" + Decimal(q) }

  function PendingId(c: string): string { "pending-" + c }

  /** A user row of this browser that has no transcript number yet. */
  predicate Provisional(m: Message) {
    m.kind == "user" && m.number.None? && m.clientMsgId.Some?
  }

  /** The first row with this id, or the length when there is none. */
  function IndexOfId(rows: seq<Message>, id: string): (i: nat)
    ensures i <= |rows|
    ensures i < |rows| ==> rows[i].msgId == id
    ensures forall j :: 0 <= j < i ==> rows[j].msgId != id
  {
    if rows == [] || rows[0].msgId == id then 0 else 1 + IndexOfId(rows[1..], id)
  }

  /** The first provisional row, or the length when there is none. */
  function IndexOfProvisional(rows: seq<Message>): (i: nat)
    ensures i <= |rows|
    ensures i < |rows| ==> Provisional(rows[i])
    ensures forall j :: 0 <= j < i ==> !Provisional(rows[j])
  {
    if rows == [] || Provisional(rows[0]) then 0 else 1 + IndexOfProvisional(rows[1..])
  }

  function WithoutId(rows: seq<Message>, id: string): seq<Message> {
    if rows == [] then [] else (if rows[0].msgId != id then [rows[0]] else []) + WithoutId(rows[1..], id)
  }

  function Map(rows: seq<Message>, f: Message -> Message): seq<Message> {
    seq(|rows|, i requires 0 <= i < |rows| => f(rows[i]))
  }

  function RemoveAt(rows: seq<Message>, i: nat): seq<Message>
    requires i < |rows|
  {
    rows[..i] + rows[i + 1..]
  }

  function Accept(m: Message, c: string): Message {
    m.(clientMsgId := Some(c), optimistic := Some(false), deliveryUnknown := Some(false))
  }

  /** Append a stream row at its place: before every provisional row, after everything else. */
  function Insert(rows: seq<Message>, m: Message): seq<Message> {
    if m.number.None? then rows + [m]
    else
      var i := IndexOfProvisional(rows);
      rows[..i] + [m] + rows[i..]
  }

  /** A receipt has rekeyed this row, and its content has not arrived. */
  predicate AwaitsContent(m: Message) {
    Provisional(m) && m.optimistic == Some(false)
  }

  function AppendUniqueMessage(prev: seq<Message>, m: Message): seq<Message> {
    var i := IndexOfId(prev, m.msgId);
    if i == |prev| then Insert(prev, m)
    else if m.kind == "user" && m.number.Some? && AwaitsContent(prev[i])
    then Insert(RemoveAt(prev, i), Accept(m, prev[i].clientMsgId.value))
    else prev
  }

  /** The echo rendered at the moment of sending; `staged` are the names of the attached images. */
  function OptimisticMessage(c: string, text: string, staged: seq<string>): Message {
    var body := if staged == [] then text
                else ChipLine(staged) + (if text == "" then "" else "\n" + text);
    Message("user", None, body, PendingId(c), Some(c), Some(true), None)
  }

  function ChipLine(staged: seq<string>): string {
    if staged == [] then ""
    else "\U{1F4CE} " + staged[0] + (if |staged| == 1 then "" else ", " + ChipLine(staged[1..]))
  }

  function Rekey(m: Message, q: nat): Message {
    m.(msgId := UserId(q), optimistic := Some(false), deliveryUnknown := Some(false))
  }

  function Doubt(m: Message): Message { m.(deliveryUnknown := Some(true)) }

  function AcceptIfReal(m: Message, c: string, q: nat): Message {
    if m.msgId == UserId(q) then Accept(m, c) else m
  }

  function RekeyIfPending(m: Message, c: string, q: nat): Message {
    if m.msgId == PendingId(c) then Rekey(m, q) else m
  }

  function ReconcileAccepted(prev: seq<Message>, c: string, q: nat): seq<Message> {
    if IndexOfId(prev, UserId(q)) < |prev|
    then Map(WithoutId(prev, PendingId(c)), (m: Message) => AcceptIfReal(m, c, q))
    else Map(prev, (m: Message) => RekeyIfPending(m, c, q))
  }

  function DoubtIfSentBy(m: Message, c: string): Message {
    if m.clientMsgId == Some(c) && m.optimistic == Some(true) then Doubt(m) else m
  }

  function MarkDeliveryUnknown(prev: seq<Message>, c: string): seq<Message> {
    Map(prev, (m: Message) => DoubtIfSentBy(m, c))
  }

  function DoubtIfLocal(m: Message): Message {
    if m.optimistic == Some(true) && m.clientMsgId.Some? then Doubt(m) else m
  }

  function MarkPendingDeliveryUnknown(prev: seq<Message>): seq<Message> {
    Map(prev, (m: Message) => DoubtIfLocal(m))
  }

  // ---------------------------------------------------------------------------------------------
  // Histories
  // ---------------------------------------------------------------------------------------------

  /** What happens to the row list: local sends, stream rows, receipts, and failed publishes. */
  datatype Event =
    | Send(c: string, text: string, staged: seq<string>)
    | Stream(row: Message)
    | Ack(c: string, q: nat)
    | Unknown(c: string)
    | AllUnknown

  function Apply(rows: seq<Message>, e: Event): seq<Message> {
    match e
    case Send(c, text, staged) => AppendUniqueMessage(rows, OptimisticMessage(c, text, staged))
    case Stream(m) => AppendUniqueMessage(rows, m)
    case Ack(c, q) => ReconcileAccepted(rows, c, q)
    case Unknown(c) => MarkDeliveryUnknown(rows, c)
    case AllUnknown => MarkPendingDeliveryUnknown(rows)
  }

  function Rows(events: seq<Event>): seq<Message> {
    if events == [] then [] else Apply(Rows(events[..|events| - 1]), events[|events| - 1])
  }
}
