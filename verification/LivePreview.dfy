/**
 * The latest-only preview of one channel: the coordinate in its message id
 * (packages/cli/src/broker/live-output.ts) and the broker's watermark row
 * (apps/web/lib/broker/sqlite-multi.ts).
 */
module LivePreview {
  import opened Common

  const LIVE_OUTPUT_TTL_MS := 30000

  datatype Coordinate = Coordinate(startedAt: nat, incarnation: string, revision: nat)

  // ---------------------------------------------------------------------------------------------
  // The coordinate and its order
  // ---------------------------------------------------------------------------------------------

  function CompareLiveCoordinates(a: Coordinate, b: Coordinate): int {
    if a.startedAt != b.startedAt then a.startedAt - b.startedAt
    else if a.incarnation == b.incarnation then a.revision - b.revision
    else if Before(b.incarnation, a.incarnation) then 1
    else -1
  }

  predicate Less(a: Coordinate, b: Coordinate) { CompareLiveCoordinates(a, b) < 0 }

  /** The comparator is a total order: its sign flips with its arguments, and zero is equality. */
  lemma ComparatorIsTotal(a: Coordinate, b: Coordinate)
    ensures CompareLiveCoordinates(a, b) == 0 <==> a == b
    ensures CompareLiveCoordinates(a, b) > 0 <==> Less(b, a)
  {
    BeforeIsTotal(a.incarnation, b.incarnation);
  }

  lemma ComparatorIsTransitive(a: Coordinate, b: Coordinate, c: Coordinate)
    requires Less(a, b) && Less(b, c)
    ensures Less(a, c)
  {
    BeforeIsTotal(a.incarnation, b.incarnation);
    BeforeIsTotal(b.incarnation, c.incarnation);
    BeforeIsTotal(a.incarnation, c.incarnation);
    if Before(a.incarnation, b.incarnation) && Before(b.incarnation, c.incarnation) {
      BeforeIsTransitive(a.incarnation, b.incarnation, c.incarnation);
    }
  }

  const PREFIX := "preview.v1."

  /** Two groups and the dot between them. */
  function Dotted(a: string, b: string): string { a + ['.'] + b }

  function Groups(c: Coordinate): string {
    Dotted(Decimal(c.startedAt), Dotted(c.incarnation, Decimal(c.revision)))
  }

  function LiveOutputId(c: Coordinate): string { PREFIX + Groups(c) }

  function Upto(s: string, c: char): (n: nat)
    ensures n <= |s| && c !in s[..n] && (n < |s| ==> s[n] == c)
  {
    if s == "" || s[0] == c then 0 else Upto(s[1..], c) + 1
  }

  predicate IsDigit(c: char) { '0' <= c <= '9' }

  /** `0|[1-9][0-9]*` */
  predicate Canonical(s: string) { s == "0" || (s != "" && s[0] != '0' && forall c :: c in s ==> IsDigit(c)) }

  function Number(s: string): nat
    requires forall c :: c in s ==> IsDigit(c)
  {
    if s == "" then 0
    else
      var n := |s| - 1;
      assert IsDigit(s[n]);
      Number(s[..n]) * 10 + (s[n] as int - '0' as int)
  }

  predicate NameChar(c: char) { 'A' <= c <= 'Z' || 'a' <= c <= 'z' || IsDigit(c) || c == '-' }

  /** `[A-Za-z0-9-]{1,64}` */
  predicate IsName(s: string) { 1 <= |s| <= 64 && forall c :: c in s ==> NameChar(c) }

  /** The anchored pattern: none of its three groups can contain the dot that separates them. */
  function ParseLiveCoordinate(id: string): Option<Coordinate> {
    if PREFIX <= id then ParseGroups(id[|PREFIX|..]) else None
  }

  function ParseGroups(rest: string): Option<Coordinate> {
    var i := Upto(rest, '.');
    if i == |rest| then None
    else
      var tail := rest[i + 1..];
      var j := Upto(tail, '.');
      if j == |tail| then None else FromGroups(rest[..i], tail[..j], tail[j + 1..])
  }

  function FromGroups(startedAt: string, incarnation: string, revision: string): Option<Coordinate> {
    if Canonical(startedAt) && IsName(incarnation) && Canonical(revision)
       && Number(startedAt) <= MAX_SAFE_INTEGER && Number(revision) <= MAX_SAFE_INTEGER
    then Some(Coordinate(Number(startedAt), incarnation, Number(revision)))
    else None
  }

  lemma {:induction false} DecimalIsCanonical(n: nat)
    ensures Canonical(Decimal(n)) && Number(Decimal(n)) == n
  {
    var s := Decimal(n);
    DecimalIsDigits(n);
    if n < 10 {
      assert s[..0] == "" && Number(s[..0]) == 0;
    } else {
      DecimalIsCanonical(n / 10);
      assert s[..|s| - 1] == Decimal(n / 10);
      assert s[0] == Decimal(n / 10)[0] && Decimal(n / 10) != "0";
    }
  }

  lemma {:induction false} CanonicalIsDecimal(s: string)
    requires Canonical(s)
    ensures Decimal(Number(s)) == s
    ensures Number(s) == 0 ==> s == "0"
  {
    var n := |s| - 1;
    var head := s[..n];
    assert IsDigit(s[n]) && s == head + [s[n]];
    if n == 0 {
      assert head == "" && Number(head) == 0;
    } else {
      assert forall c :: c in head ==> c in s;
      assert head[0] == s[0];
      CanonicalIsDecimal(head);
      assert Number(s) / 10 == Number(head) && Number(s) >= 10;
    }
  }

  lemma UptoDot(a: string, rest: string)
    requires '.' !in a
    ensures var n := Upto(Dotted(a, rest), '.'); n == |a| && Dotted(a, rest)[..n] == a && Dotted(a, rest)[n + 1..] == rest
  {
    var t := Dotted(a, rest);
    assert t[|a|] == '.' && t[..|a|] == a;
  }

  predicate Encodable(c: Coordinate) {
    c.startedAt <= MAX_SAFE_INTEGER && IsName(c.incarnation) && c.revision <= MAX_SAFE_INTEGER
  }

  lemma ParseInvertsGroups(c: Coordinate)
    requires Encodable(c)
    ensures ParseGroups(Groups(c)) == Some(c)
  {
    var d, r := Decimal(c.startedAt), Decimal(c.revision);
    DecimalIsCanonical(c.startedAt);
    DecimalIsCanonical(c.revision);
    ParsesGroups(d, c.incarnation, r);
  }

  lemma ParsesGroups(startedAt: string, incarnation: string, revision: string)
    requires '.' !in startedAt && '.' !in incarnation
    ensures ParseGroups(Dotted(startedAt, Dotted(incarnation, revision))) == FromGroups(startedAt, incarnation, revision)
  {
    UptoDot(startedAt, Dotted(incarnation, revision));
    UptoDot(incarnation, revision);
  }

  lemma DottedAgain(s: string, i: nat)
    requires i < |s| && s[i] == '.'
    ensures Dotted(s[..i], s[i + 1..]) == s
  {
  }

  lemma FromGroupsIsCanonical(startedAt: string, incarnation: string, revision: string)
    requires FromGroups(startedAt, incarnation, revision).Some?
    ensures var c := FromGroups(startedAt, incarnation, revision).value;
            Encodable(c) && Groups(c) == Dotted(startedAt, Dotted(incarnation, revision))
  {
    CanonicalIsDecimal(startedAt);
    CanonicalIsDecimal(revision);
  }

  lemma GroupsInvertParse(rest: string)
    requires ParseGroups(rest).Some?
    ensures Encodable(ParseGroups(rest).value) && Groups(ParseGroups(rest).value) == rest
  {
    var i := Upto(rest, '.');
    var tail := rest[i + 1..];
    var j := Upto(tail, '.');
    FromGroupsIsCanonical(rest[..i], tail[..j], tail[j + 1..]);
    DottedAgain(tail, j);
    DottedAgain(rest, i);
  }

  lemma ParseInvertsId(c: Coordinate)
    requires Encodable(c)
    ensures ParseLiveCoordinate(LiveOutputId(c)) == Some(c)
  {
    ParseInvertsGroups(c);
    PrefixedSplits(PREFIX, Groups(c));
  }

  lemma PrefixedSplits(prefix: string, s: string)
    ensures prefix <= prefix + s && (prefix + s)[|prefix|..] == s
  {
  }

  /** An accepted id is the one spelling of its coordinate. */
  lemma IdInvertsParse(id: string)
    requires ParseLiveCoordinate(id).Some?
    ensures Encodable(ParseLiveCoordinate(id).value) && LiveOutputId(ParseLiveCoordinate(id).value) == id
  {
    GroupsInvertParse(id[|PREFIX|..]);
  }

  // ---------------------------------------------------------------------------------------------
  // The watermark row
  // ---------------------------------------------------------------------------------------------

  /**
   * The row. The stored fingerprint is a SHA-256 of the serialized frame; it is represented by the
   * serialization it identifies. `frame` is that serialization until expiry drops it.
   */
  datatype LiveRow = LiveRow(gen: nat, at: Coordinate, frame: Option<string>, fingerprint: string, expiresAt: int)

  datatype Meta = Meta(gen: nat, closed: bool)

  datatype Table = Table(channel: Option<Meta>, row: Option<LiveRow>)

  /** A frame offered by a publisher, with the broker's clock when it arrives. */
  datatype Offer = Offer(at: Coordinate, frame: string, now: int)

  predicate Open(t: Table) { t.channel.Some? && !t.channel.value.closed }

  /** The row counts only in the incarnation that wrote it. */
  predicate Standing(t: Table) { t.channel.Some? && t.row.Some? && t.row.value.gen == t.channel.value.gen }

  predicate Collides(t: Table, o: Offer) {
    Open(t) && Standing(t) && o.at == t.row.value.at && t.row.value.fingerprint != o.frame
  }

  function Put(t: Table, o: Offer): Table {
    if !Open(t) || (Standing(t) && CompareLiveCoordinates(o.at, t.row.value.at) <= 0) then t
    else t.(row := Some(LiveRow(t.channel.value.gen, o.at, Some(o.frame), o.frame, o.now + LIVE_OUTPUT_TTL_MS)))
  }

  /** The frame a reader gets at time `now`. */
  function Peek(t: Table, now: int): Option<string> {
    if Open(t) && Standing(t) && t.row.value.expiresAt > now then t.row.value.frame else None
  }

  /** A read that saw an expired row drops the ciphertext, whatever row is there by then, if that one has expired. */
  function Drop(t: Table, now: int): Table {
    if t.row.Some? && t.row.value.expiresAt <= now then t.(row := Some(t.row.value.(frame := None))) else t
  }

  class LiveStore {
    var channel: Option<Meta>
    var row: Option<LiveRow>

    ghost function Value(): Table
      reads this
    {
      Table(channel, row)
    }

    constructor ()
      ensures Value() == Table(None, None)
    {
      channel, row := None, None;
    }

    /** False when there is no live channel; a collision throws. */
    method PutLiveOutput(o: Offer) returns (r: Result<bool, ()>)
      modifies this
      ensures Value() == Put(old(Value()), o)
      ensures r.Err? <==> Collides(old(Value()), o)
      ensures r.Ok? ==> r.value == Open(old(Value()))
    {
      if channel.None? || channel.value.closed {
        return Ok(false);
      }
      var gen := channel.value.gen;
      if row.Some? && row.value.gen == gen {
        var comparison := CompareLiveCoordinates(o.at, row.value.at);
        ComparatorIsTotal(o.at, row.value.at);
        if comparison == 0 && row.value.fingerprint != o.frame {
          return Err(());
        }
        if comparison <= 0 {
          return Ok(true);
        }
      }
      row := Some(LiveRow(gen, o.at, Some(o.frame), o.frame, o.now + LIVE_OUTPUT_TTL_MS));
      return Ok(true);
    }

    method GetLiveOutput(now: int) returns (frame: Option<string>)
      modifies this
      ensures frame == Peek(old(Value()), now)
      ensures Value() == if Open(old(Value())) && Standing(old(Value())) then Drop(old(Value()), now) else old(Value())
    {
      if channel.None? || row.None? || channel.value.closed || row.value.gen != channel.value.gen {
        return None;
      }
      if row.value.expiresAt <= now {
        if row.value.frame.Some? {
          row := Some(row.value.(frame := None));
        }
        return None;
      }
      return row.value.frame;
    }
  }

  // ---------------------------------------------------------------------------------------------
  // Runs
  // ---------------------------------------------------------------------------------------------

  /** `Create` and `Reopen` are the publishes that begin an incarnation. */
  datatype Action = Create | Offered(offer: Offer) | Dropped(now: int) | Close | Reopen

  function Step(t: Table, a: Action): Table {
    match a
    case Create => if t.channel.None? then t.(channel := Some(Meta(0, false))) else t
    case Offered(o) => Put(t, o)
    case Dropped(now) => Drop(t, now)
    case Close => if t.channel.Some? then t.(channel := Some(t.channel.value.(closed := true))) else t
    case Reopen =>
      if t.channel.Some? && t.channel.value.closed then t.(channel := Some(Meta(t.channel.value.gen + 1, false))) else t
  }

  function Run(t: Table, actions: seq<Action>): Table
    decreases actions
  {
    if actions == [] then t else Run(Step(t, actions[0]), actions[1..])
  }

  /** The offers made to the live channel since its current incarnation began. */
  function Offers(t: Table, actions: seq<Action>, sofar: seq<Offer>): seq<Offer>
    decreases actions
  {
    if actions == [] then sofar
    else
      var a := actions[0];
      var next := if a.Offered? && Open(t) then sofar + [a.offer]
                  else if a.Reopen? && t.channel.Some? && t.channel.value.closed then []
                  else sofar;
      Offers(Step(t, a), actions[1..], next)
  }

  /** No read that dropped ciphertext had a clock later than `now`. */
  predicate DroppedBy(actions: seq<Action>, now: int) {
    forall a :: a in actions ==> a.Dropped? ==> a.now <= now
  }

  /** `offers[i]` is the first of the offers with the greatest coordinate. */
  predicate FirstNewest(offers: seq<Offer>, i: int) {
    && 0 <= i < |offers|
    && (forall j :: 0 <= j < i ==> Less(offers[j].at, offers[i].at))
    && (forall j :: i < j < |offers| ==> !Less(offers[i].at, offers[j].at))
  }

  /** What the row of the current incarnation says about its offers. */
  ghost predicate Reflects(t: Table, offers: seq<Offer>, now: int) {
    && (t.row.Some? ==> t.channel.Some? && t.row.value.gen <= t.channel.value.gen)
    && (Standing(t) <==> offers != [])
    && (offers != [] ==> exists i :: FirstNewest(offers, i) && Holds(t.row.value, offers[i], now))
  }

  predicate Holds(row: LiveRow, o: Offer, now: int) {
    && row.at == o.at && row.fingerprint == o.frame && row.expiresAt == o.now + LIVE_OUTPUT_TTL_MS
    && (row.frame == Some(o.frame) || (row.frame.None? && row.expiresAt <= now))
  }

  lemma RowHoldsNewest(t: Table, offers: seq<Offer>, i: int, now: int)
    requires Reflects(t, offers, now) && FirstNewest(offers, i)
    ensures Standing(t) && Holds(t.row.value, offers[i], now)
  {
    var k :| FirstNewest(offers, k) && Holds(t.row.value, offers[k], now);
    assert k == i;
  }

  lemma NewestMoves(offers: seq<Offer>, i: int, o: Offer)
    requires FirstNewest(offers, i)
    ensures FirstNewest(offers + [o], if Less(offers[i].at, o.at) then |offers| else i)
  {
    var all := offers + [o];
    if Less(offers[i].at, o.at) {
      forall j | 0 <= j < |offers| ensures Less(all[j].at, o.at) {
        ComparatorIsTotal(offers[j].at, offers[i].at);
        if Less(offers[j].at, offers[i].at) {
          ComparatorIsTransitive(offers[j].at, offers[i].at, o.at);
        }
      }
    }
  }

  lemma PutKeepsReflecting(t: Table, o: Offer, offers: seq<Offer>, now: int)
    requires Reflects(t, offers, now) && Open(t)
    ensures Reflects(Put(t, o), offers + [o], now)
  {
    var all, t' := offers + [o], Put(t, o);
    var k := 0;
    if offers != [] {
      var i :| FirstNewest(offers, i) && Holds(t.row.value, offers[i], now);
      ComparatorIsTotal(o.at, offers[i].at);
      NewestMoves(offers, i, o);
      k := if Less(offers[i].at, o.at) then |offers| else i;
    }
    assert FirstNewest(all, k) && Holds(t'.row.value, all[k], now);
  }

  lemma DropKeepsReflecting(t: Table, at: int, offers: seq<Offer>, now: int)
    requires Reflects(t, offers, now) && at <= now
    ensures Reflects(Drop(t, at), offers, now)
  {
    if offers != [] {
      var i :| FirstNewest(offers, i) && Holds(t.row.value, offers[i], now);
      assert Holds(Drop(t, at).row.value, offers[i], now);
    }
  }

  lemma {:induction false} RunReflects(t: Table, actions: seq<Action>, sofar: seq<Offer>, now: int)
    requires Reflects(t, sofar, now) && DroppedBy(actions, now)
    ensures Reflects(Run(t, actions), Offers(t, actions, sofar), now)
    decreases actions
  {
    if actions != [] {
      var a, rest := actions[0], actions[1..];
      assert a in actions && forall b :: b in rest ==> b in actions;
      match a {
        case Offered(o) =>
          if Open(t) {
            PutKeepsReflecting(t, o, sofar, now);
            RunReflects(Step(t, a), rest, sofar + [o], now);
          } else {
            RunReflects(t, rest, sofar, now);
          }
        case Dropped(at) =>
          DropKeepsReflecting(t, at, sofar, now);
          RunReflects(Step(t, a), rest, sofar, now);
        case Reopen =>
          RunReflects(Step(t, a), rest, if t.channel.Some? && t.channel.value.closed then [] else sofar, now);
        case _ =>
          RunReflects(Step(t, a), rest, sofar, now);
      }
    }
  }

  /**
   * Over every run of offers, reads, closes and reopenings: a reader gets a frame exactly when the channel
   * is live and, of the offers of this incarnation, the first with the greatest coordinate has not
   * expired; and then it gets that very frame. A retry or an older revision never replaces it or
   * extends its life.
   */
  lemma ReaderGetsNewestUnexpired(actions: seq<Action>, now: int, i: int)
    requires DroppedBy(actions, now) && FirstNewest(Offers(Table(None, None), actions, []), i)
    ensures var o := Offers(Table(None, None), actions, [])[i];
            Peek(Run(Table(None, None), actions), now)
            == if Open(Run(Table(None, None), actions)) && now < o.now + LIVE_OUTPUT_TTL_MS then Some(o.frame) else None
  {
    RunReflects(Table(None, None), actions, [], now);
    RowHoldsNewest(Run(Table(None, None), actions), Offers(Table(None, None), actions, []), i, now);
  }

  /** Without an offer in this incarnation there is nothing to read, whatever an earlier incarnation stored. */
  lemma NoOfferNothingToRead(actions: seq<Action>, now: int)
    requires DroppedBy(actions, now) && Offers(Table(None, None), actions, []) == []
    ensures Peek(Run(Table(None, None), actions), now) == None
  {
    RunReflects(Table(None, None), actions, [], now);
  }

  /** An offer at the watermark with other bytes always collides, also after the ciphertext expired. */
  lemma WatermarkCollidesIff(actions: seq<Action>, i: int, o: Offer)
    requires FirstNewest(Offers(Table(None, None), actions, []), i) && Open(Run(Table(None, None), actions))
    ensures var newest := Offers(Table(None, None), actions, [])[i];
            Collides(Run(Table(None, None), actions), o) <==> o.at == newest.at && o.frame != newest.frame
  {
    var now := LastDrop(actions);
    RunReflects(Table(None, None), actions, [], now);
    RowHoldsNewest(Run(Table(None, None), actions), Offers(Table(None, None), actions, []), i, now);
  }

  function LastDrop(actions: seq<Action>): (now: int)
    ensures DroppedBy(actions, now)
  {
    if actions == [] then 0
    else
      var n := LastDrop(actions[1..]);
      if actions[0].Dropped? && actions[0].now > n then actions[0].now else n
  }

  /** The watermark of a live incarnation never moves back, and the expiry moves only with the watermark. */
  lemma {:induction false} WatermarkNeverRegresses(t: Table, actions: seq<Action>)
    requires Standing(t) && Run(t, actions).channel.Some? && Run(t, actions).channel.value.gen == t.channel.value.gen
    ensures Standing(Run(t, actions))
    ensures var before, after := t.row.value, Run(t, actions).row.value;
            || Less(before.at, after.at)
            || (before.at == after.at && before.expiresAt == after.expiresAt && before.fingerprint == after.fingerprint
                && (after.frame == before.frame || after.frame.None?))
    decreases actions
  {
    if actions != [] {
      var t' := Step(t, actions[0]);
      GenNeverDecreases(t', actions[1..]);
      if actions[0].Offered? && Open(t) {
        ComparatorIsTotal(actions[0].offer.at, t.row.value.at);
      }
      WatermarkNeverRegresses(t', actions[1..]);
      var before, mid, after := t.row.value, t'.row.value, Run(t, actions).row.value;
      if Less(before.at, mid.at) && Less(mid.at, after.at) {
        ComparatorIsTransitive(before.at, mid.at, after.at);
      }
    }
  }

  lemma {:induction false} GenNeverDecreases(t: Table, actions: seq<Action>)
    requires t.channel.Some?
    ensures Run(t, actions).channel.Some? && t.channel.value.gen <= Run(t, actions).channel.value.gen
    decreases actions
  {
    if actions != [] {
      GenNeverDecreases(Step(t, actions[0]), actions[1..]);
    }
  }
}
