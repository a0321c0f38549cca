/**
 * From `postMessage` to the viewer's transcript, through a broker that may drop, repeat, reorder and inject
 * frames: authentication, ordering, the span loop and reassembly together (apps/web/app/lib/viewer.ts,
 * packages/cli/src/broker/client.ts).
 */
module Delivery {
  import opened Common
  import opened Text
  import opened Canonical
  import opened Aad
  import opened Orderer
  import opened OrdererProperties
  import opened DedupWindow
  import Wire
  import Chunks

  /** What the sender posted as one transcript entry, and the frames it was sealed into. */
  datatype Posted = Posted(header: FrameHeader, plaintext: Bytes, max: nat, frames: seq<Frame>)

  /** An id as the characters that the dedup keys are made of, one for each UTF-16 unit. */
  function Spelling(id: Utf16): string {
    seq(|id|, i requires 0 <= i < |id| => if id[i] < 0xD800 then id[i] as char else (id[i] as int + 0x800) as char)
  }

  /** The fields the orderer reads are those of the header; `ct` stands for the rest of the wire frame. */
  predicate RoutedBy(f: Frame, h: FrameHeader) {
    && f.msgId == Spelling(h.msgId) && h.part == Int(f.part) && h.parts == Int(f.parts)
    && h.seqNumber == (if f.entry.Some? then Some(Int(f.entry.value)) else None)
  }

  /**
   * The frames of an entry carry its pieces, and their routing fields are those of their headers. `wire`
   * gives the wire frame that a frame of the orderer is the routing view of.
   */
  ghost predicate IsPosted(wire: Frame -> Wire.Frame, open: Wire.Frame -> Option<Bytes>, q: nat, m: Posted) {
    && m.max > 0 && m.header.seqNumber == Some(Int(q))
    && var pieces := Chunks.SplitOf(m.plaintext, m.max);
    && |m.frames| == |pieces| > 0
    && forall i :: 0 <= i < |pieces| ==>
         && RoutedBy(m.frames[i], wire(m.frames[i]).header)
         && wire(m.frames[i]).header == Chunks.ChunkHeader(m.header, i, |pieces|)
         && open(wire(m.frames[i])) == Some(pieces[i])
  }

  lemma PostedIsRouted(wire: Frame -> Wire.Frame, open: Wire.Frame -> Option<Bytes>, q: nat, m: Posted)
    requires IsPosted(wire, open, q, m)
    ensures forall i :: 0 <= i < |m.frames| ==>
              && m.frames[i].entry == Some(q) && m.frames[i].msgId == m.frames[0].msgId
              && m.frames[i].part == i && m.frames[i].parts == |m.frames|
  {
  }

  /** One entry per number from `start`, and control frames besides. */
  ghost predicate Entries(wire: Frame -> Wire.Frame, open: Wire.Frame -> Option<Bytes>, start: nat,
                          posted: seq<Posted>, controls: set<Frame>)
  {
    && (forall j :: 0 <= j < |posted| ==> IsPosted(wire, open, start + j, posted[j]))
    && (forall c :: c in controls ==> c.entry.None?)
  }

  /** Ids are used once, and no id spells another frame's key. */
  ghost predicate Unambiguous(all: set<Frame>) {
    && (forall f, g :: f in all && g in all && f.msgId == g.msgId ==> f.entry == g.entry)
    && (forall f, g :: f in all && g in all && f.entry.None? && SamePart(f, g) ==> f == g)
    && (forall f, g :: f in all && g in all ==> !Spells(f, g))
  }

  ghost predicate Sent(wire: Frame -> Wire.Frame, open: Wire.Frame -> Option<Bytes>, start: nat,
                       posted: seq<Posted>, controls: set<Frame>)
  {
    Entries(wire, open, start, posted, controls) && Unambiguous(All(posted, controls))
  }

  /** Every frame sent. */
  function All(posted: seq<Posted>, controls: set<Frame>): set<Frame> {
    (set j, i | 0 <= j < |posted| && 0 <= i < |posted[j].frames| :: posted[j].frames[i]) + controls
  }

  lemma EntryOfFrame(wire: Frame -> Wire.Frame, open: Wire.Frame -> Option<Bytes>, start: nat,
                     posted: seq<Posted>, controls: set<Frame>, f: Frame) returns (j: nat)
    requires Entries(wire, open, start, posted, controls) && f in All(posted, controls) && f.entry.Some?
    ensures j < |posted| && f.entry == Some(start + j)
    ensures 0 <= f.part < |posted[j].frames| == f.parts && posted[j].frames[f.part] == f
    ensures f.msgId == posted[j].frames[0].msgId
  {
    assert f !in controls;
    var k, i :| 0 <= k < |posted| && 0 <= i < |posted[k].frames| && posted[k].frames[i] == f;
    PostedIsRouted(wire, open, start + k, posted[k]);
    j := k;
  }

  /** What was sent meets the discipline that confluence asks for. */
  lemma SentIsConsistent(wire: Frame -> Wire.Frame, open: Wire.Frame -> Option<Bytes>, start: nat,
                         posted: seq<Posted>, controls: set<Frame>)
    requires Sent(wire, open, start, posted, controls)
    ensures Consistent(All(posted, controls))
  {
    var all := All(posted, controls);
    forall f, g | f in all && g in all && f.entry.Some? && f.entry == g.entry
      ensures f.msgId == g.msgId && f.parts == g.parts && 0 <= f.part < f.parts
    {
      SameEntrySameMessage(wire, open, start, posted, controls, f, g);
    }
    forall f, g | f in all && g in all && DedupKey(f) == DedupKey(g) ensures f == g {
      KeyNamesOneFrame(all, f, g);
      if f.entry.Some? {
        SameEntrySameMessage(wire, open, start, posted, controls, f, g);
      }
    }
  }

  lemma SameEntrySameMessage(wire: Frame -> Wire.Frame, open: Wire.Frame -> Option<Bytes>, start: nat,
                             posted: seq<Posted>, controls: set<Frame>, f: Frame, g: Frame)
    requires Entries(wire, open, start, posted, controls)
    requires f in All(posted, controls) && g in All(posted, controls) && f.entry.Some? && f.entry == g.entry
    ensures f.msgId == g.msgId && f.parts == g.parts && 0 <= f.part < f.parts
    ensures SamePart(f, g) ==> f == g
  {
    var j := EntryOfFrame(wire, open, start, posted, controls, f);
    var k := EntryOfFrame(wire, open, start, posted, controls, g);
  }

  lemma KeyNamesOneFrame(all: set<Frame>, f: Frame, g: Frame)
    requires Unambiguous(all) && f in all && g in all && DedupKey(f) == DedupKey(g)
    ensures f.entry == g.entry && SamePart(f, g) && (f.entry.None? ==> f == g)
  {
    KeysCollideIff(f, g);
    assert !Spells(f, g) && !Spells(g, f);
  }

  lemma PostedIsWhole(wire: Frame -> Wire.Frame, open: Wire.Frame -> Option<Bytes>, q: nat, m: Posted)
    requires IsPosted(wire, open, q, m)
    ensures WholeMessage(q, m.frames)
  {
    PostedIsRouted(wire, open, q, m);
  }

  // ---------------------------------------------------------------------------------------------
  // Reading
  // ---------------------------------------------------------------------------------------------

  function Carried(wire: Frame -> Wire.Frame, group: seq<Frame>): seq<Wire.Frame> {
    seq(|group|, i requires 0 <= i < |group| => wire(group[i]))
  }

  /** What the viewer reads from one group: a chunked one through `openMessage`, a single frame directly. */
  function Read(wire: Frame -> Wire.Frame, open: Wire.Frame -> Option<Bytes>, group: seq<Frame>): Option<Bytes>
    requires group != []
  {
    if Chunked(group[0])
    then
      var result := Chunks.Opened(open, Carried(wire, group), false, false);
      if result.Ok? then Some(result.value) else None
    else open(wire(group[0]))
  }

  /** The frames that pass the routing checks and authentication, before any of them reaches the orderer. */
  function Admitted(wire: Frame -> Wire.Frame, open: Wire.Frame -> Option<Bytes>, arrivals: seq<Frame>): seq<Frame> {
    if arrivals == [] then []
    else (if open(wire(arrivals[0])).Some? then [arrivals[0]] else []) + Admitted(wire, open, arrivals[1..])
  }

  lemma {:induction false} AdmittedMembers(wire: Frame -> Wire.Frame, open: Wire.Frame -> Option<Bytes>, arrivals: seq<Frame>)
    ensures forall f :: f in Admitted(wire, open, arrivals) <==> f in arrivals && open(wire(f)).Some?
  {
    if arrivals != [] {
      assert arrivals == [arrivals[0]] + arrivals[1..];
      AdmittedMembers(wire, open, arrivals[1..]);
    }
  }

  lemma PostedIsWholeOnWire(wire: Frame -> Wire.Frame, open: Wire.Frame -> Option<Bytes>, q: nat, m: Posted)
    requires IsPosted(wire, open, q, m)
    ensures Chunks.Carries(open, Carried(wire, m.frames), Chunks.SplitOf(m.plaintext, m.max), false, false)
  {
    var frames := Carried(wire, m.frames);
    assert forall i :: 0 <= i < |frames| ==> frames[i].header == Chunks.ChunkHeader(m.header, i, |frames|);
  }

  /** The viewer reads what was posted. */
  lemma PostedIsRead(wire: Frame -> Wire.Frame, open: Wire.Frame -> Option<Bytes>, q: nat, m: Posted)
    requires IsPosted(wire, open, q, m)
    ensures Read(wire, open, m.frames) == Some(m.plaintext)
  {
    var pieces := Chunks.SplitOf(m.plaintext, m.max);
    Chunks.SplitOfIsSplit(m.plaintext, m.max);
    PostedIsRouted(wire, open, q, m);
    if |pieces| > 1 {
      PostedIsWholeOnWire(wire, open, q, m);
      Chunks.CarriesIff(open, Carried(wire, m.frames), pieces, false, false);
    } else {
      Chunks.OnePiece(m.plaintext, m.max, pieces);
    }
  }

  /** Sealing with a cipher that opens what it sealed posts an entry. */
  lemma SealedIsPosted(wire: Frame -> Wire.Frame, open: Wire.Frame -> Option<Bytes>,
                       seal: (nat, FrameHeader, Bytes) -> Wire.Frame, q: nat, m: Posted)
    requires Chunks.Inverts(seal, open) && m.max > 0 && m.header.seqNumber == Some(Int(q))
    requires var pieces := Chunks.SplitOf(m.plaintext, m.max);
             && Serializable(Chunks.ChunkHeader(m.header, 0, |pieces|))
             && |m.frames| == |pieces|
             && Chunks.SealsEach(seal, m.header, pieces, Carried(wire, m.frames))
             && forall i :: 0 <= i < |pieces| ==> RoutedBy(m.frames[i], wire(m.frames[i]).header)
    ensures IsPosted(wire, open, q, m)
  {
    var pieces := Chunks.SplitOf(m.plaintext, m.max);
    Chunks.SplitOfIsSplit(m.plaintext, m.max);
    forall i | 0 <= i < |pieces|
      ensures wire(m.frames[i]).header == Chunks.ChunkHeader(m.header, i, |pieces|)
      ensures open(wire(m.frames[i])) == Some(pieces[i])
    {
      assert Carried(wire, m.frames)[i] == wire(m.frames[i]);
      assert Serializable(Chunks.ChunkHeader(m.header, i, |pieces|));
    }
  }

  // ---------------------------------------------------------------------------------------------
  // Main results
  // ---------------------------------------------------------------------------------------------

  /** What authenticates was sent. */
  ghost predicate Unforged(wire: Frame -> Wire.Frame, open: Wire.Frame -> Option<Bytes>, arrivals: seq<Frame>, all: set<Frame>) {
    forall f :: f in arrivals && open(wire(f)).Some? ==> f in all
  }

  /** The groups that the span loop cuts from everything released. */
  function Groups(wire: Frame -> Wire.Frame, open: Wire.Frame -> Option<Bytes>, start: nat, cap: nat,
                  arrivals: seq<Frame>): seq<seq<Frame>>
  {
    MessagesOf(start, cap, Admitted(wire, open, arrivals))
  }

  /** Some chunk of the entry has not come. */
  predicate Misses(m: Posted, arrivals: seq<Frame>) {
    exists f :: f in m.frames && f !in arrivals
  }

  lemma SubsetIsConsistent(received: set<Frame>, all: set<Frame>)
    requires Consistent(all) && received <= all
    ensures Consistent(received)
  {
  }

  /** The messages released are whole and arrived, and the next one is not complete. */
  lemma ReleasedMessages(start: nat, cap: nat, admitted: seq<Frame>)
    requires Consistent(Received(admitted))
    ensures var messages := MessagesOf(start, cap, admitted);
            && Messages(start, messages)
            && (forall i, f :: 0 <= i < |messages| && f in messages[i] ==> f in Received(admitted))
            && !Complete(Received(admitted), start + |messages|)
  {
    CursorIsLeastMissing(start, cap, admitted);
  }

  /** A group cut from the release is the whole message of its number among what was sent. */
  lemma GroupIsMessage(start: nat, cap: nat, admitted: seq<Frame>, j: nat)
    requires Consistent(Received(admitted)) && j < |MessagesOf(start, cap, admitted)|
    ensures var g := MessagesOf(start, cap, admitted)[j];
            WholeMessage(start + j, g) && forall f :: f in g ==> f in Received(admitted)
  {
    ReleasedMessages(start, cap, admitted);
  }

  /** The message after the last group has not fully come. */
  lemma NextIsMissing(start: nat, cap: nat, admitted: seq<Frame>, h: seq<Frame>)
    requires Consistent(Received(admitted))
    requires WholeMessage(start + |MessagesOf(start, cap, admitted)|, h)
    ensures exists f :: f in h && f !in Received(admitted)
  {
    ReleasedMessages(start, cap, admitted);
    ArrivedIsComplete(Received(admitted), start + |MessagesOf(start, cap, admitted)|, h);
  }

  lemma ArrivedIsComplete(received: set<Frame>, q: nat, h: seq<Frame>)
    requires WholeMessage(q, h)
    ensures (forall f :: f in h ==> f in received) ==> Complete(received, q)
  {
  }

  /** Only frames that were sent reach the orderer. */
  lemma AdmittedWereSent(wire: Frame -> Wire.Frame, open: Wire.Frame -> Option<Bytes>, start: nat,
                         posted: seq<Posted>, controls: set<Frame>, arrivals: seq<Frame>)
    requires Sent(wire, open, start, posted, controls)
    requires Unforged(wire, open, arrivals, All(posted, controls))
    ensures Consistent(All(posted, controls)) && Consistent(Received(Admitted(wire, open, arrivals)))
    ensures Received(Admitted(wire, open, arrivals)) <= All(posted, controls)
    ensures forall f :: f in Received(Admitted(wire, open, arrivals)) <==> f in arrivals && open(wire(f)).Some?
  {
    SentIsConsistent(wire, open, start, posted, controls);
    AdmittedMembers(wire, open, arrivals);
    SubsetIsConsistent(Received(Admitted(wire, open, arrivals)), All(posted, controls));
  }

  lemma PostedIsAmong(posted: seq<Posted>, controls: set<Frame>, j: nat)
    requires j < |posted|
    ensures forall f :: f in posted[j].frames ==> f in All(posted, controls)
  {
    assert forall i :: 0 <= i < |posted[j].frames| ==> posted[j].frames[i] in All(posted, controls);
  }

  /** Every group released is one posted entry, in order from the first. */
  lemma GroupsArePosted(wire: Frame -> Wire.Frame, open: Wire.Frame -> Option<Bytes>, start: nat, cap: nat,
                        posted: seq<Posted>, controls: set<Frame>, arrivals: seq<Frame>, j: nat)
    requires Sent(wire, open, start, posted, controls)
    requires Unforged(wire, open, arrivals, All(posted, controls))
    requires j < |Groups(wire, open, start, cap, arrivals)|
    ensures j < |posted| && Groups(wire, open, start, cap, arrivals)[j] == posted[j].frames
    ensures forall f :: f in posted[j].frames ==> f in arrivals
  {
    AdmittedWereSent(wire, open, start, posted, controls, arrivals);
    GroupIsMessage(start, cap, Admitted(wire, open, arrivals), j);
    GroupIsPosted(wire, open, start, posted, controls, j, Groups(wire, open, start, cap, arrivals)[j]);
  }

  lemma GroupIsPosted(wire: Frame -> Wire.Frame, open: Wire.Frame -> Option<Bytes>, start: nat,
                      posted: seq<Posted>, controls: set<Frame>, j: nat, g: seq<Frame>)
    requires Entries(wire, open, start, posted, controls) && Consistent(All(posted, controls))
    requires WholeMessage(start + j, g) && forall f :: f in g ==> f in All(posted, controls)
    ensures j < |posted| && g == posted[j].frames
  {
    assert g[0] in g;
    var k := EntryOfFrame(wire, open, start, posted, controls, g[0]);
    PostedIsWhole(wire, open, start + j, posted[j]);
    PostedIsAmong(posted, controls, j);
    MessageIsUnique(All(posted, controls), start + j, g, posted[j].frames);
  }

  /** Release stops only at an entry of which something is missing. */
  lemma StopsAtMissing(wire: Frame -> Wire.Frame, open: Wire.Frame -> Option<Bytes>, start: nat, cap: nat,
                       posted: seq<Posted>, controls: set<Frame>, arrivals: seq<Frame>)
    requires Sent(wire, open, start, posted, controls)
    requires Unforged(wire, open, arrivals, All(posted, controls))
    ensures var n := |Groups(wire, open, start, cap, arrivals)|; n < |posted| ==> Misses(posted[n], arrivals)
  {
    var n := |Groups(wire, open, start, cap, arrivals)|;
    AdmittedWereSent(wire, open, start, posted, controls, arrivals);
    if n < |posted| {
      SentAt(wire, open, start, posted, controls, n);
      IncompleteIsMissed(wire, open, start, cap, posted[n], arrivals);
    }
  }

  lemma IncompleteIsMissed(wire: Frame -> Wire.Frame, open: Wire.Frame -> Option<Bytes>, start: nat, cap: nat,
                           m: Posted, arrivals: seq<Frame>)
    requires Consistent(Received(Admitted(wire, open, arrivals)))
    requires IsPosted(wire, open, start + |Groups(wire, open, start, cap, arrivals)|, m)
    ensures Misses(m, arrivals)
  {
    var q := start + |Groups(wire, open, start, cap, arrivals)|;
    PostedIsWhole(wire, open, q, m);
    NextIsMissing(start, cap, Admitted(wire, open, arrivals), m.frames);
    UnadmittedIsMissed(wire, open, q, m, arrivals);
  }

  lemma UnadmittedIsMissed(wire: Frame -> Wire.Frame, open: Wire.Frame -> Option<Bytes>, q: nat, m: Posted,
                           arrivals: seq<Frame>)
    requires IsPosted(wire, open, q, m)
    requires exists f :: f in m.frames && f !in Received(Admitted(wire, open, arrivals))
    ensures Misses(m, arrivals)
  {
    AdmittedMembers(wire, open, arrivals);
  }

  lemma GroupIsRead(wire: Frame -> Wire.Frame, open: Wire.Frame -> Option<Bytes>, start: nat, cap: nat,
                    posted: seq<Posted>, controls: set<Frame>, arrivals: seq<Frame>, j: nat)
    requires Sent(wire, open, start, posted, controls)
    requires Unforged(wire, open, arrivals, All(posted, controls))
    requires j < |Groups(wire, open, start, cap, arrivals)|
    ensures var g := Groups(wire, open, start, cap, arrivals)[j];
            && j < |posted| && !Misses(posted[j], arrivals)
            && g != [] && Read(wire, open, g) == Some(posted[j].plaintext)
  {
    GroupsArePosted(wire, open, start, cap, posted, controls, arrivals, j);
    SentAt(wire, open, start, posted, controls, j);
    PostedIsRead(wire, open, start + j, posted[j]);
  }

  /**
   * End to end. A broker may drop, repeat and reorder the frames that were sent and mix in any frames of
   * its own that do not authenticate. What the viewer reads is then exactly the plaintexts that were
   * posted, in order, up to the first entry of which a frame is missing.
   */
  lemma TranscriptIsWhatWasPosted(wire: Frame -> Wire.Frame, open: Wire.Frame -> Option<Bytes>, start: nat, cap: nat,
                                  posted: seq<Posted>, controls: set<Frame>, arrivals: seq<Frame>)
    requires Sent(wire, open, start, posted, controls)
    requires Unforged(wire, open, arrivals, All(posted, controls))
    ensures var groups := Groups(wire, open, start, cap, arrivals);
            && |groups| <= |posted|
            && (forall j :: 0 <= j < |groups| ==>
                  groups[j] != [] && Read(wire, open, groups[j]) == Some(posted[j].plaintext))
            && (forall j :: 0 <= j < |groups| ==> !Misses(posted[j], arrivals))
            && (|groups| < |posted| ==> Misses(posted[|groups|], arrivals))
  {
    var groups := Groups(wire, open, start, cap, arrivals);
    forall j | 0 <= j < |groups|
      ensures j < |posted| && !Misses(posted[j], arrivals)
      ensures groups[j] != [] && Read(wire, open, groups[j]) == Some(posted[j].plaintext)
    {
      GroupIsRead(wire, open, start, cap, posted, controls, arrivals, j);
    }
    if |groups| > |posted| {
      GroupsArePosted(wire, open, start, cap, posted, controls, arrivals, |posted|);
    }
    StopsAtMissing(wire, open, start, cap, posted, controls, arrivals);
  }

  lemma SentAt(wire: Frame -> Wire.Frame, open: Wire.Frame -> Option<Bytes>, start: nat,
               posted: seq<Posted>, controls: set<Frame>, j: nat)
    requires Entries(wire, open, start, posted, controls) && j < |posted|
    ensures IsPosted(wire, open, start + j, posted[j]) && posted[j].frames != []
  {
  }
}
