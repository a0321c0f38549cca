/**
 * Splitting a message into sealed chunks and putting them together again (packages/clawsec/src/chunk.ts and
 * `openMessage` of packages/cli/src/broker/client.ts). The cipher is symbolic: `unseal` opens a frame under
 * the fixed key or fails, `seal` makes the frame of its n-th call.
 */
module Chunks {
  import opened Common
  import opened Text
  import opened Canonical
  import opened Aad
  import opened Wire

  const MAX_PARTS := 100_000

  /** Why a message cannot be split, sealed or put together; the readers' reasons are one. */
  datatype ChunkError = BadLimit | TooManyChunks | NotReassembled

  // ---------------------------------------------------------------------------------------------
  // Splitting
  // ---------------------------------------------------------------------------------------------

  /** Full pieces, then one that is not empty unless the plaintext is. */
  predicate IsSplit(plaintext: Bytes, max: nat, pieces: seq<Bytes>) {
    && pieces != [] && Flatten(pieces) == plaintext
    && (forall i :: 0 <= i < |pieces| - 1 ==> |pieces[i]| == max)
    && |pieces[|pieces| - 1]| <= max
    && (pieces[|pieces| - 1] == [] ==> plaintext == [])
  }

  method SplitPlaintext(plaintext: Bytes, maxChunkBytes: Number) returns (r: Result<seq<Bytes>, ChunkError>)
    ensures r.Ok? <==> maxChunkBytes.Int? && maxChunkBytes.value > 0
    ensures r.Err? ==> r.error == BadLimit
    ensures r.Ok? ==> IsSplit(plaintext, maxChunkBytes.value, r.value)
  {
    if !maxChunkBytes.Int? || maxChunkBytes.value <= 0 {
      return Err(BadLimit);
    }
    if plaintext == [] {
      assert Flatten([plaintext]) == plaintext + Flatten([plaintext][1..]);
      return Ok([plaintext]);
    }
    var max, off, pieces := maxChunkBytes.value, 0, [];
    while off < |plaintext|
      invariant 0 <= off && Flatten(pieces) == plaintext[..if off < |plaintext| then off else |plaintext|]
      invariant forall i :: 0 <= i < |pieces| - 1 ==> |pieces[i]| == max
      invariant pieces != [] ==> 0 < |pieces[|pieces| - 1]| <= max
      invariant pieces != [] && off < |plaintext| ==> |pieces[|pieces| - 1]| == max
      invariant pieces == [] ==> off == 0
      decreases |plaintext| - off
    {
      var end := if off + max < |plaintext| then off + max else |plaintext|;
      FlattenSnoc(pieces, plaintext[off..end]);
      assert plaintext[..off] + plaintext[off..end] == plaintext[..end];
      pieces := pieces + [plaintext[off..end]];
      off := off + max;
    }
    assert plaintext[..|plaintext|] == plaintext;
    return Ok(pieces);
  }

  lemma FlattenIsNotEmpty(pieces: seq<Bytes>)
    requires pieces != [] && pieces[|pieces| - 1] != []
    ensures Flatten(pieces) != []
  {
    FlattenSnoc(pieces[..|pieces| - 1], pieces[|pieces| - 1]);
    assert pieces == pieces[..|pieces| - 1] + [pieces[|pieces| - 1]];
  }

  lemma SplitTail(plaintext: Bytes, max: nat, pieces: seq<Bytes>)
    requires max > 0 && IsSplit(plaintext, max, pieces) && |pieces| > 1
    ensures |plaintext| > max && pieces[0] == plaintext[..max] && IsSplit(plaintext[max..], max, pieces[1..])
  {
    assert Flatten(pieces) == pieces[0] + Flatten(pieces[1..]);
    assert |pieces[0]| == max && plaintext != [];
    assert pieces[1..][|pieces| - 2] == pieces[|pieces| - 1];
    FlattenIsNotEmpty(pieces[1..]);
    assert plaintext[max..] == Flatten(pieces[1..]);
  }

  lemma OnePiece(plaintext: Bytes, max: nat, pieces: seq<Bytes>)
    requires IsSplit(plaintext, max, pieces) && |pieces| == 1
    ensures pieces == [plaintext] && |plaintext| <= max
  {
    assert Flatten(pieces) == pieces[0] + Flatten(pieces[1..]) == pieces[0];
  }

  /** The pieces are determined by the plaintext and the limit. */
  lemma {:induction false} SplitIsDetermined(plaintext: Bytes, max: nat, a: seq<Bytes>, b: seq<Bytes>)
    requires max > 0 && IsSplit(plaintext, max, a) && IsSplit(plaintext, max, b)
    ensures a == b
    decreases |a|
  {
    if |a| > 1 {
      SplitTail(plaintext, max, a);
    } else {
      OnePiece(plaintext, max, a);
    }
    if |b| > 1 {
      SplitTail(plaintext, max, b);
    } else {
      OnePiece(plaintext, max, b);
    }
    if |a| > 1 && |b| > 1 {
      SplitIsDetermined(plaintext[max..], max, a[1..], b[1..]);
      assert a == [a[0]] + a[1..] && b == [b[0]] + b[1..];
    }
  }

  // ---------------------------------------------------------------------------------------------
  // Sealing
  // ---------------------------------------------------------------------------------------------

  function ChunkHeader(h: FrameHeader, part: nat, parts: nat): FrameHeader { h.(part := Int(part), parts := Int(parts)) }

  /** Each piece is sealed under the header with its part and the number of pieces. */
  predicate SealsEach(seal: (nat, FrameHeader, Bytes) -> Frame, header: FrameHeader, pieces: seq<Bytes>, frames: seq<Frame>) {
    && |frames| == |pieces|
    && forall i :: 0 <= i < |pieces| ==> frames[i] == seal(i, ChunkHeader(header, i, |pieces|), pieces[i])
  }

  /** The pieces, one full one at a time. */
  function SplitOf(plaintext: Bytes, max: nat): seq<Bytes>
    requires max > 0
  {
    if |plaintext| <= max then [plaintext] else [plaintext[..max]] + SplitOf(plaintext[max..], max)
  }

  lemma {:induction false} SplitOfIsSplit(plaintext: Bytes, max: nat)
    requires max > 0
    ensures IsSplit(plaintext, max, SplitOf(plaintext, max))
  {
    if |plaintext| <= max {
      FlattenCons(plaintext, []);
      assert [plaintext] + [] == [plaintext] && plaintext + [] == plaintext;
    } else {
      var rest := SplitOf(plaintext[max..], max);
      SplitOfIsSplit(plaintext[max..], max);
      FlattenCons(plaintext[..max], rest);
      var all := [plaintext[..max]] + rest;
      assert forall i :: 1 <= i < |all| ==> all[i] == rest[i - 1];
      assert plaintext[..max] + plaintext[max..] == plaintext;
    }
  }

  method SealChunked(seal: (nat, FrameHeader, Bytes) -> Frame, header: FrameHeader, plaintext: Bytes, maxChunkBytes: Number)
    returns (r: Result<seq<Frame>, ChunkError>)
    ensures r.Ok? <==> maxChunkBytes.Int? && maxChunkBytes.value > 0 && |SplitOf(plaintext, maxChunkBytes.value)| <= MAX_PARTS
    ensures r.Err? ==> r.error == if maxChunkBytes.Int? && maxChunkBytes.value > 0 then TooManyChunks else BadLimit
    ensures r.Ok? ==> SealsEach(seal, header, SplitOf(plaintext, maxChunkBytes.value), r.value)
  {
    var split := SplitPlaintext(plaintext, maxChunkBytes);
    if split.Err? {
      return Err(BadLimit);
    }
    SplitOfIsSplit(plaintext, maxChunkBytes.value);
    SplitIsDetermined(plaintext, maxChunkBytes.value, split.value, SplitOf(plaintext, maxChunkBytes.value));
    var parts := |split.value|;
    if parts > MAX_PARTS {
      return Err(TooManyChunks);
    }
    var frames := [];
    for part := 0 to parts
      invariant |frames| == part
      invariant forall i :: 0 <= i < part ==> frames[i] == seal(i, ChunkHeader(header, i, parts), split.value[i])
    {
      frames := frames + [seal(part, ChunkHeader(header, part, parts), split.value[part])];
    }
    return Ok(frames);
  }

  // ---------------------------------------------------------------------------------------------
  // Reassembly
  // ---------------------------------------------------------------------------------------------

  /** The headers agree on everything but the chunk; `openMessage` does not compare the version. */
  predicate SameMessage(a: FrameHeader, b: FrameHeader, versions: bool) {
    && (versions ==> a.v == b.v)
    && a.sessionId == b.sessionId && a.dir == b.dir && a.recordKind == b.recordKind && a.seqNumber == b.seqNumber
    && a.msgId == b.msgId && a.clientMsgId == b.clientMsgId && a.keyEpoch == b.keyEpoch && a.identityId == b.identityId
  }

  predicate InRange(part: Number, parts: nat) { part.Int? && 0 <= part.value < parts }

  /**
   * The frame fits beside `first` in a message of `parts` chunks. Minus zero and fractions are left to fail
   * here; the cipher refuses their headers in any case.
   */
  predicate Fits(f: Frame, first: Frame, parts: nat, versions: bool) {
    f.header.parts == Int(parts) && SameMessage(f.header, first.header, versions) && InRange(f.header.part, parts)
  }

  /** All frames of one message, each part once; `openChunked` also caps their number. */
  predicate Whole(frames: seq<Frame>, versions: bool, capped: bool) {
    && frames != [] && (capped ==> |frames| <= MAX_PARTS)
    && (forall k :: 0 <= k < |frames| ==> Fits(frames[k], frames[0], |frames|, versions))
    && (forall j, k :: 0 <= j < k < |frames| ==> frames[j].header.part != frames[k].header.part)
  }

  /** The frames are whole and open to the pieces, each at the place its part names. */
  predicate Carries(unseal: Frame -> Option<Bytes>, frames: seq<Frame>, pieces: seq<Bytes>, versions: bool, capped: bool) {
    && Whole(frames, versions, capped) && |pieces| == |frames|
    && forall k :: 0 <= k < |frames| ==> unseal(frames[k]) == Some(pieces[frames[k].header.part.value])
  }

  /** A whole message covers every part. */
  lemma WholeCovers(frames: seq<Frame>, versions: bool, capped: bool, part: nat)
    requires Whole(frames, versions, capped) && part < |frames|
    ensures exists k :: 0 <= k < |frames| && frames[k].header.part == Int(part)
  {
    var xs := seq(|frames|, k requires 0 <= k < |frames| && frames[k].header.part.Int? => frames[k].header.part.value);
    forall j, k | 0 <= j < k < |xs| ensures xs[j] != xs[k] {
      assert frames[j].header.part != frames[k].header.part;
    }
    Pigeonhole(xs, |frames|);
    assert part in xs;
    var k :| 0 <= k < |xs| && xs[k] == part;
    assert frames[k].header.part == Int(part);
  }

  /** The first frame with this part, or the length. */
  function FrameOfPart(frames: seq<Frame>, part: nat): (k: nat)
    ensures k <= |frames| && (k < |frames| ==> frames[k].header.part == Int(part))
    ensures k == |frames| ==> forall j :: 0 <= j < |frames| ==> frames[j].header.part != Int(part)
  {
    if frames == [] || frames[0].header.part == Int(part) then 0
    else
      assert forall j :: 0 < j < |frames| ==> frames[j] == frames[1..][j - 1];
      FrameOfPart(frames[1..], part) + 1
  }

  function PieceOfPart(unseal: Frame -> Option<Bytes>, frames: seq<Frame>, part: nat): Bytes {
    var k := FrameOfPart(frames, part);
    if k < |frames| && unseal(frames[k]).Some? then unseal(frames[k]).value else []
  }

  /** What the frames open to, in part order. */
  function PiecesOf(unseal: Frame -> Option<Bytes>, frames: seq<Frame>): seq<Bytes> {
    seq(|frames|, i requires 0 <= i < |frames| => PieceOfPart(unseal, frames, i))
  }

  /** The frames are a whole message and all open. */
  predicate Opens(unseal: Frame -> Option<Bytes>, frames: seq<Frame>, versions: bool, capped: bool) {
    Whole(frames, versions, capped) && forall k :: 0 <= k < |frames| ==> unseal(frames[k]).Some?
  }

  /** The plaintext of a whole message that opens. */
  function Opened(unseal: Frame -> Option<Bytes>, frames: seq<Frame>, versions: bool, capped: bool): Result<Bytes, ChunkError> {
    if Opens(unseal, frames, versions, capped) then Ok(Flatten(PiecesOf(unseal, frames))) else Err(NotReassembled)
  }

  /** Frames carry at most one list of pieces, and one exactly when they open as a whole message. */
  lemma CarriesIff(unseal: Frame -> Option<Bytes>, frames: seq<Frame>, pieces: seq<Bytes>, versions: bool, capped: bool)
    ensures Carries(unseal, frames, pieces, versions, capped)
            <==> Opens(unseal, frames, versions, capped) && pieces == PiecesOf(unseal, frames)
  {
    if Whole(frames, versions, capped) && |pieces| == |frames| {
      forall k | 0 <= k < |frames| ensures FrameOfPart(frames, frames[k].header.part.value) == k {
        var j := FrameOfPart(frames, frames[k].header.part.value);
        assert j < |frames| && frames[j].header.part == frames[k].header.part;
      }
      forall i | 0 <= i < |pieces| ensures FrameOfPart(frames, i) < |frames| {
        WholeCovers(frames, versions, capped, i);
      }
      if Carries(unseal, frames, pieces, versions, capped) {
        assert forall i :: 0 <= i < |pieces| ==> pieces[i] == PiecesOf(unseal, frames)[i];
      }
    }
  }

  /** The slots after the first `n` frames. */
  ghost predicate Filled(unseal: Frame -> Option<Bytes>, frames: seq<Frame>, slots: seq<Option<Bytes>>, n: nat, versions: bool) {
    && n <= |frames| == |slots|
    && (forall k :: 0 <= k < n ==> Fits(frames[k], frames[0], |frames|, versions) && unseal(frames[k]).Some?)
    && (forall k :: 0 <= k < n ==> slots[frames[k].header.part.value] == unseal(frames[k]))
    && (forall j, k :: 0 <= j < k < n ==> frames[j].header.part != frames[k].header.part)
    && (forall i :: 0 <= i < |slots| && slots[i].Some? ==> exists k :: 0 <= k < n && frames[k].header.part == Int(i))
  }

  lemma FillsNext(unseal: Frame -> Option<Bytes>, frames: seq<Frame>, slots: seq<Option<Bytes>>, n: nat, versions: bool)
    requires Filled(unseal, frames, slots, n, versions) && n < |frames|
    requires Fits(frames[n], frames[0], |frames|, versions) && unseal(frames[n]).Some?
    requires slots[frames[n].header.part.value].None?
    ensures Filled(unseal, frames, slots[frames[n].header.part.value := unseal(frames[n])], n + 1, versions)
  {
    var p := frames[n].header.part.value;
    var next := slots[p := unseal(frames[n])];
    forall i | 0 <= i < |next| && next[i].Some? ensures exists k :: 0 <= k < n + 1 && frames[k].header.part == Int(i) {
      if i == p {
        assert frames[n].header.part == Int(i);
      }
    }
  }

  function Contents(slots: seq<Option<Bytes>>): seq<Bytes> {
    seq(|slots|, i requires 0 <= i < |slots| => if slots[i].Some? then slots[i].value else [])
  }

  lemma FilledCarries(unseal: Frame -> Option<Bytes>, frames: seq<Frame>, slots: seq<Option<Bytes>>, versions: bool, capped: bool)
    requires Filled(unseal, frames, slots, |frames|, versions) && frames != [] && (capped ==> |frames| <= MAX_PARTS)
    ensures Carries(unseal, frames, Contents(slots), versions, capped)
    ensures forall i :: 0 <= i < |slots| ==> slots[i].Some?
  {
    forall i | 0 <= i < |slots| ensures slots[i].Some? {
      WholeCovers(frames, versions, capped, i);
    }
  }

  /** A frame that does not fit, does not open, or comes twice is in no whole message. */
  lemma MisfitIsNotWhole(unseal: Frame -> Option<Bytes>, frames: seq<Frame>, slots: seq<Option<Bytes>>, n: nat,
                         versions: bool, capped: bool)
    requires Filled(unseal, frames, slots, n, versions) && n < |frames|
    requires Fits(frames[n], frames[0], |frames|, versions) && unseal(frames[n]).Some? ==>
               slots[frames[n].header.part.value].Some?
    ensures !Opens(unseal, frames, versions, capped)
  {
    if Fits(frames[n], frames[0], |frames|, versions) && unseal(frames[n]).Some? {
      var k :| 0 <= k < n && frames[k].header.part == Int(frames[n].header.part.value);
      assert frames[k].header.part == frames[n].header.part;
    }
  }

  /** The pieces in part order, from a copy of the slots. */
  method Ordered(slots: array<Option<Bytes>>) returns (ordered: seq<Bytes>)
    requires forall i :: 0 <= i < slots.Length ==> slots[i].Some?
    ensures ordered == Contents(slots[..])
  {
    ordered := [];
    for i := 0 to slots.Length
      invariant ordered == Contents(slots[..])[..i]
    {
      ordered := ordered + [slots[i].value];
    }
  }

  /**
   * Open every frame into its slot. The result is Ok exactly for a whole message whose frames all open, and
   * then the pieces are concatenated in part order, whatever the order of the frames.
   */
  method OpenChunked(unseal: Frame -> Option<Bytes>, frames: seq<Frame>) returns (r: Result<Bytes, ChunkError>)
    ensures r == Opened(unseal, frames, true, true)
  {
    if frames == [] {
      return Err(NotReassembled);
    }
    var parts := frames[0].header.parts;
    if !parts.Int? || parts.value < 1 || parts.value > MAX_PARTS || |frames| != parts.value {
      assert !Fits(frames[0], frames[0], |frames|, true) || |frames| > MAX_PARTS;
      return Err(NotReassembled);
    }
    var slots := new Option<Bytes>[|frames|](_ => None);
    for n := 0 to |frames|
      invariant Filled(unseal, frames, slots[..], n, true)
    {
      var f := frames[n];
      if f.header.parts != parts || !SameMessage(f.header, frames[0].header, true) || !InRange(f.header.part, |frames|) {
        MisfitIsNotWhole(unseal, frames, slots[..], n, true, true);
        return Err(NotReassembled);
      }
      var opening := unseal(f);
      if slots[f.header.part.value].Some? || opening.None? {
        MisfitIsNotWhole(unseal, frames, slots[..], n, true, true);
        return Err(NotReassembled);
      }
      FillsNext(unseal, frames, slots[..], n, true);
      slots[f.header.part.value] := opening;
    }
    FilledCarries(unseal, frames, slots[..], true, true);
    var complete := Ordered(slots);
    CarriesIff(unseal, frames, complete, true, true);
    return Ok(Flatten(complete));
  }

  /** The same without the cap and without comparing versions. */
  method OpenMessage(openFrame: Frame -> Option<Bytes>, frames: seq<Frame>) returns (r: Result<Bytes, ChunkError>)
    ensures r == Opened(openFrame, frames, false, false)
  {
    if frames == [] {
      return Err(NotReassembled);
    }
    var parts := frames[0].header.parts;
    if parts != Int(|frames|) {
      assert !Fits(frames[0], frames[0], |frames|, false);
      return Err(NotReassembled);
    }
    var slots := new Option<Bytes>[|frames|](_ => None);
    for n := 0 to |frames|
      invariant Filled(openFrame, frames, slots[..], n, false)
    {
      var f := frames[n];
      if f.header.parts != parts || !SameMessage(f.header, frames[0].header, false) || !InRange(f.header.part, |frames|) {
        MisfitIsNotWhole(openFrame, frames, slots[..], n, false, false);
        return Err(NotReassembled);
      }
      var plaintext := openFrame(f);
      if slots[f.header.part.value].Some? || plaintext.None? {
        MisfitIsNotWhole(openFrame, frames, slots[..], n, false, false);
        return Err(NotReassembled);
      }
      FillsNext(openFrame, frames, slots[..], n, false);
      slots[f.header.part.value] := plaintext;
    }
    FilledCarries(openFrame, frames, slots[..], false, false);
    var ordered := Ordered(slots);
    CarriesIff(openFrame, frames, ordered, false, false);
    return Ok(Flatten(ordered));
  }

  // ---------------------------------------------------------------------------------------------
  // The round trip
  // ---------------------------------------------------------------------------------------------

  predicate IsPermutation(order: seq<nat>, n: nat) {
    && |order| == n && (forall k :: 0 <= k < n ==> order[k] < n)
    && (forall j, k :: 0 <= j < k < n ==> order[j] != order[k])
  }

  function Shuffled(frames: seq<Frame>, order: seq<nat>): seq<Frame>
    requires IsPermutation(order, |frames|)
  {
    seq(|order|, k requires 0 <= k < |order| => frames[order[k]])
  }

  /** The cipher opens what it sealed, under the header it was sealed with. */
  ghost predicate Inverts(seal: (nat, FrameHeader, Bytes) -> Frame, unseal: Frame -> Option<Bytes>) {
    forall n, h, p :: Serializable(h) ==> seal(n, h, p).header == h && unseal(seal(n, h, p)) == Some(p)
  }

  /**
   * The sealed chunks of a message, in any order, open to the plaintext in both readers.
   */
  lemma ShuffledChunksReopen(
    seal: (nat, FrameHeader, Bytes) -> Frame, unseal: Frame -> Option<Bytes>, header: FrameHeader,
    plaintext: Bytes, max: nat, pieces: seq<Bytes>, frames: seq<Frame>, order: seq<nat>)
    requires Inverts(seal, unseal) && Serializable(ChunkHeader(header, 0, 1))
    requires IsSplit(plaintext, max, pieces) && |pieces| <= MAX_PARTS
    requires SealsEach(seal, header, pieces, frames)
    requires IsPermutation(order, |frames|)
    ensures Opened(unseal, Shuffled(frames, order), true, true) == Ok(plaintext)
    ensures Opened(unseal, Shuffled(frames, order), false, false) == Ok(plaintext)
  {
    forall i | 0 <= i < |pieces|
      ensures frames[i].header == ChunkHeader(header, i, |pieces|) && unseal(frames[i]) == Some(pieces[i])
    {
      SealedPieceOpens(seal, unseal, header, i, |pieces|, pieces[i]);
    }
    ShuffledIsWhole(header, frames, order);
    CarriesIff(unseal, Shuffled(frames, order), pieces, true, true);
    CarriesIff(unseal, Shuffled(frames, order), pieces, false, false);
  }

  lemma SealedPieceOpens(seal: (nat, FrameHeader, Bytes) -> Frame, unseal: Frame -> Option<Bytes>, header: FrameHeader,
                         part: nat, parts: nat, piece: Bytes)
    requires Inverts(seal, unseal) && Serializable(ChunkHeader(header, 0, 1)) && part < parts <= MAX_PARTS
    ensures var f := seal(part, ChunkHeader(header, part, parts), piece);
            f.header == ChunkHeader(header, part, parts) && unseal(f) == Some(piece)
  {
    assert Serializable(ChunkHeader(header, part, parts));
  }

  lemma ShuffledIsWhole(header: FrameHeader, frames: seq<Frame>, order: seq<nat>)
    requires forall i :: 0 <= i < |frames| ==> frames[i].header == ChunkHeader(header, i, |frames|)
    requires IsPermutation(order, |frames|) && 0 < |frames| <= MAX_PARTS
    ensures Whole(Shuffled(frames, order), true, true) && Whole(Shuffled(frames, order), false, false)
    ensures forall k :: 0 <= k < |frames| ==> Shuffled(frames, order)[k].header.part == Int(order[k])
  {
    var shuffled := Shuffled(frames, order);
    assert forall k :: 0 <= k < |frames| ==> shuffled[k].header == ChunkHeader(header, order[k], |frames|);
  }

  /**
   * The two readers differ exactly on a message that opens and is over the cap or whose chunks claim
   * different versions: `openMessage` accepts it, `openChunked` refuses it.
   */
  lemma ReadersDifferIff(unseal: Frame -> Option<Bytes>, frames: seq<Frame>)
    ensures Opened(unseal, frames, true, true) != Opened(unseal, frames, false, false)
            <==> Opens(unseal, frames, false, false)
                 && (|frames| > MAX_PARTS || exists k :: 0 <= k < |frames| && frames[k].header.v != frames[0].header.v)
  {
    if k :| 0 <= k < |frames| && frames[k].header.v != frames[0].header.v {
      assert !Fits(frames[k], frames[0], |frames|, true);
    } else if Opens(unseal, frames, false, false) && |frames| <= MAX_PARTS {
      assert forall k :: 0 <= k < |frames| ==> Fits(frames[k], frames[0], |frames|, true);
    }
  }
}
