/** The strict wire envelope of a frame (packages/clawsec/src/wire.ts). */
module Wire {
  import opened Common
  import opened Text
  import opened Canonical
  import opened Aad
  import Base64url

  const MAX_ROUTING_STRING := 256
  const MAX_MSG_ID := 1024

  datatype Frame = Frame(header: FrameHeader, salt: Bytes, nonce: Bytes, ct: Bytes)

  /** A property value, as the checks tell values apart. */
  datatype Json = Undefined | Null | Num(number: Number) | Str(text: Utf16) | Other

  datatype Property = Data(value: Json) | Accessor

  /** The property names of a wire frame; a frame may carry others. */
  datatype Key =
    | V | IdentityId | SessionId | Dir | RecordKind | SeqNumber | MsgId | KeyEpoch | Salt | Nonce | Ct | Part | Parts
    | ClientMsgId | Extra(name: string)

  const REQUIRED_WIRE_KEYS := [V, IdentityId, SessionId, Dir, RecordKind, SeqNumber, MsgId, KeyEpoch, Salt, Nonce, Ct, Part, Parts]

  /** What crosses the boundary: an object with own properties, or something else (an array, a primitive). */
  datatype Value = Object(properties: map<Key, Property>) | NotObject

  datatype WireError = NotAnObject | Bad(key: Key)

  // ---------------------------------------------------------------------------------------------
  // Hexadecimal
  // ---------------------------------------------------------------------------------------------

  type Nibble = v: int | 0 <= v < 16

  function HexDigit(v: Nibble): Unit { if v < 10 then 0x30 + v else 0x61 + (v - 10) }

  function HexValue(u: Unit): Option<Nibble> {
    if 0x30 <= u <= 0x39 then Some(u - 0x30)
    else if 0x61 <= u <= 0x66 then Some(u - 0x61 + 10)
    else if 0x41 <= u <= 0x46 then Some(u - 0x41 + 10)
    else None
  }

  function Nibbles(bytes: Bytes): (n: seq<Nibble>)
    ensures |n| == 2 * |bytes|
  {
    if bytes == [] then [] else [bytes[0] / 16, bytes[0] % 16] + Nibbles(bytes[1..])
  }

  function Packed(n: seq<Nibble>): (bytes: Bytes)
    requires |n| % 2 == 0
    ensures 2 * |bytes| == |n|
  {
    if n == [] then [] else [Pack(n[0], n[1])] + Packed(n[2..])
  }

  function Pack(high: Nibble, low: Nibble): Byte { high * 16 + low }

  lemma {:induction false} PackedInvertsNibbles(bytes: Bytes)
    ensures Packed(Nibbles(bytes)) == bytes
  {
    if bytes != [] {
      assert Nibbles(bytes)[2..] == Nibbles(bytes[1..]);
      PackedInvertsNibbles(bytes[1..]);
      assert bytes == [bytes[0]] + bytes[1..];
    }
  }

  lemma {:induction false} NibblesInvertPacked(n: seq<Nibble>)
    requires |n| % 2 == 0
    ensures Nibbles(Packed(n)) == n
  {
    if n != [] {
      NibblesInvertPacked(n[2..]);
      NibblesOfPair(n[0], n[1], Packed(n[2..]));
      assert n == [n[0], n[1]] + n[2..];
    }
  }

  lemma NibblesOfPair(high: Nibble, low: Nibble, rest: Bytes)
    ensures Nibbles([Pack(high, low)] + rest) == [high, low] + Nibbles(rest)
  {
    var b := Pack(high, low);
    assert b / 16 == high && b % 16 == low;
    assert ([b] + rest)[1..] == rest;
  }

  function Digits(n: seq<Nibble>): Utf16 { seq(|n|, i requires 0 <= i < |n| => HexDigit(n[i])) }

  predicate AllHex(s: Utf16) { forall i :: 0 <= i < |s| ==> HexValue(s[i]).Some? }

  function Values(s: Utf16): (n: seq<Nibble>)
    requires AllHex(s)
    ensures |n| == |s|
  {
    seq(|s|, i requires 0 <= i < |s| => HexValue(s[i]).value)
  }

  function ToHex(bytes: Bytes): Utf16 { Digits(Nibbles(bytes)) }

  function FromHex(s: Utf16): Option<Bytes> {
    if |s| % 2 == 0 && AllHex(s) then Some(Packed(Values(s))) else None
  }

  function LowerDigit(u: Unit): Unit { if 0x41 <= u <= 0x46 then u + 0x20 else u }

  function LowerHex(s: Utf16): Utf16 { seq(|s|, i requires 0 <= i < |s| => LowerDigit(s[i])) }

  lemma HexDigitIsReadBack(v: Nibble, u: Unit)
    ensures LowerDigit(u) == HexDigit(v) <==> HexValue(u) == Some(v)
  {
  }

  lemma DigitsSpellIff(s: Utf16, n: seq<Nibble>)
    ensures LowerHex(s) == Digits(n) <==> AllHex(s) && Values(s) == n
  {
    if |s| == |n| {
      forall i | 0 <= i < |s| ensures LowerHex(s)[i] == Digits(n)[i] <==> HexValue(s[i]) == Some(n[i]) {
        HexDigitIsReadBack(n[i], s[i]);
      }
      if LowerHex(s) == Digits(n) {
        assert forall i :: 0 <= i < |s| ==> LowerHex(s)[i] == Digits(n)[i];
      }
    } else {
      assert |LowerHex(s)| == |s| && |Digits(n)| == |n|;
    }
  }

  /** A text reads as the bytes exactly when it is their spelling up to the case of its letters. */
  lemma HexSpelling(s: Utf16, bytes: Bytes)
    ensures FromHex(s) == Some(bytes) <==> LowerHex(s) == ToHex(bytes)
  {
    DigitsSpellIff(s, Nibbles(bytes));
    PackedInvertsNibbles(bytes);
    if |s| % 2 == 0 && AllHex(s) {
      NibblesInvertPacked(Values(s));
    }
  }

  // ---------------------------------------------------------------------------------------------
  // Field validators
  // ---------------------------------------------------------------------------------------------

  predicate HasControl(s: Utf16) { exists i :: 0 <= i < |s| && (s[i] <= 0x1F || s[i] == 0x7F) }

  method HasControlChar(s: Utf16) returns (found: bool)
    ensures found <==> HasControl(s)
  {
    for i := 0 to |s|
      invariant forall k :: 0 <= k < i ==> !(s[k] <= 0x1F || s[k] == 0x7F)
    {
      if s[i] <= 0x1F || s[i] == 0x7F {
        return true;
      }
    }
    return false;
  }

  predicate Bounded(s: Utf16, max: nat) { |s| <= max && WellFormed(s) }

  function ParseBoundedString(j: Json, max: nat, noControlChars: bool): Option<Utf16> {
    if j.Str? && |j.text| <= max && WellFormed(j.text) && !(noControlChars && HasControl(j.text)) then Some(j.text) else None
  }

  function ReqUint(j: Json): Option<Number> {
    if j.Num? && SafeUint(j.number) then Some(j.number) else None
  }

  /** The strict base64url field, of `len` bytes if that is given. */
  function ReqBytes(j: Json, len: Option<nat>): Option<Bytes> {
    if !j.Str? || (len.Some? && |j.text| != Base64url.EncodedLength(len.value)) then None
    else
      var bytes := Base64url.Decode(j.text);
      if bytes.None? || (len.Some? && |bytes.value| != len.value) || Base64url.Encode(bytes.value) != j.text then None
      else bytes
  }

  function ReqHexBytes(j: Json, len: nat): Option<Bytes> {
    if !j.Str? || |j.text| != 2 * len then None else FromHex(j.text)
  }

  lemma ReqBytesIff(j: Json, len: Option<nat>, bytes: Bytes)
    ensures ReqBytes(j, len) == Some(bytes) <==> j == Str(Base64url.Encode(bytes)) && (len.Some? ==> |bytes| == len.value)
  {
    Base64url.EncodeLength(bytes);
    Base64url.DecodeInvertsEncode(bytes);
  }

  lemma ReqHexIff(j: Json, len: nat, bytes: Bytes)
    ensures ReqHexBytes(j, len) == Some(bytes) <==> j.Str? && LowerHex(j.text) == ToHex(bytes) && |bytes| == len
  {
    if j.Str? {
      HexSpelling(j.text, bytes);
      assert |LowerHex(j.text)| == |j.text| && |ToHex(bytes)| == 2 * |bytes|;
    }
  }

  function ReqSeq(j: Json): Option<Option<Number>> {
    if j.Null? then Some(None) else if j.Num? && SafeUint(j.number) then Some(Some(j.number)) else None
  }

  function ReqDir(j: Json): Option<Utf16> {
    if j.Str? && (j.text == DIR_IN || j.text == DIR_OUT) then Some(j.text) else None
  }

  function ReqClientMsgId(j: Json): Option<Option<Utf16>> {
    if j.Undefined? then Some(None)
    else
      var s := ParseBoundedString(j, MAX_ROUTING_STRING, false);
      if s.Some? then Some(s) else None
  }

  // ---------------------------------------------------------------------------------------------
  // Frames
  // ---------------------------------------------------------------------------------------------

  /** The property values the boundary reads; an absent client id reads as `undefined`. */
  datatype Raw = Raw(
    v: Json, identityId: Json, sessionId: Json, dir: Json, recordKind: Json, seqNumber: Json, msgId: Json,
    keyEpoch: Json, salt: Json, nonce: Json, ct: Json, part: Json, parts: Json, clientMsgId: Json)

  /** The wire values of a frame. */
  function RawOf(f: Frame): Raw {
    var h := f.header;
    Raw(Num(h.v), Str(ToHex(h.identityId)), Str(h.sessionId), Str(h.dir), Str(h.recordKind),
        if h.seqNumber.Some? then Num(h.seqNumber.value) else Null, Str(h.msgId), Num(h.keyEpoch),
        Str(Base64url.Encode(f.salt)), Str(Base64url.Encode(f.nonce)), Str(Base64url.Encode(f.ct)),
        Num(h.part), Num(h.parts), if h.clientMsgId.Some? then Str(h.clientMsgId.value) else Undefined)
  }

  /** The object with these values; the client id is attached only when present. */
  function ObjectOf(r: Raw): map<Key, Property> {
    var wire := map[
      V := Data(r.v), IdentityId := Data(r.identityId), SessionId := Data(r.sessionId), Dir := Data(r.dir),
      RecordKind := Data(r.recordKind), SeqNumber := Data(r.seqNumber), MsgId := Data(r.msgId),
      KeyEpoch := Data(r.keyEpoch), Salt := Data(r.salt), Nonce := Data(r.nonce), Ct := Data(r.ct),
      Part := Data(r.part), Parts := Data(r.parts)];
    if r.clientMsgId.Undefined? then wire else wire[ClientMsgId := Data(r.clientMsgId)]
  }

  function EncodeFrame(f: Frame): map<Key, Property> { ObjectOf(RawOf(f)) }

  predicate Own(p: map<Key, Property>, k: Key) { k in p && p[k].Data? }

  /** The first key of the list that is not an own data property. */
  function FirstMissing(p: map<Key, Property>, keys: seq<Key>): (k: Option<Key>)
    ensures k.None? <==> forall i :: 0 <= i < |keys| ==> Own(p, keys[i])
  {
    if keys == [] then None
    else if !Own(p, keys[0]) then Some(keys[0])
    else
      assert forall i :: 0 < i < |keys| ==> keys[i] == keys[1..][i - 1];
      FirstMissing(p, keys[1..])
  }

  predicate AllOwn(p: map<Key, Property>) {
    && Own(p, V) && Own(p, IdentityId) && Own(p, SessionId) && Own(p, Dir) && Own(p, RecordKind) && Own(p, SeqNumber)
    && Own(p, MsgId) && Own(p, KeyEpoch) && Own(p, Salt) && Own(p, Nonce) && Own(p, Ct) && Own(p, Part) && Own(p, Parts)
  }

  lemma NothingMissingIff(p: map<Key, Property>)
    ensures FirstMissing(p, REQUIRED_WIRE_KEYS).None? <==> AllOwn(p)
  {
    if AllOwn(p) {
      forall i | 0 <= i < |REQUIRED_WIRE_KEYS| ensures Own(p, REQUIRED_WIRE_KEYS[i]) {
      }
    }
    if FirstMissing(p, REQUIRED_WIRE_KEYS).None? {
      EachIsOwn(p);
    }
  }

  lemma EachIsOwn(p: map<Key, Property>)
    requires forall i :: 0 <= i < |REQUIRED_WIRE_KEYS| ==> Own(p, REQUIRED_WIRE_KEYS[i])
    ensures AllOwn(p)
  {
    var keys := REQUIRED_WIRE_KEYS;
    assert keys[0] == V && keys[1] == IdentityId && keys[2] == SessionId && keys[3] == Dir && keys[4] == RecordKind;
    assert keys[5] == SeqNumber && keys[6] == MsgId && keys[7] == KeyEpoch && keys[8] == Salt && keys[9] == Nonce;
    assert keys[10] == Ct && keys[11] == Part && keys[12] == Parts;
  }

  /** The copy of the selected properties, or the first key that is not an own data property. */
  function SnapshotWireObject(value: Value): Result<Raw, WireError> {
    if value.NotObject? then Err(NotAnObject)
    else
      var p, missing := value.properties, FirstMissing(value.properties, REQUIRED_WIRE_KEYS);
      if missing.Some? then Err(Bad(missing.value))
      else if ClientMsgId in p && !p[ClientMsgId].Data? then Err(Bad(ClientMsgId))
      else
        NothingMissingIff(p);
        Ok(Raw(p[V].value, p[IdentityId].value, p[SessionId].value, p[Dir].value, p[RecordKind].value,
               p[SeqNumber].value, p[MsgId].value, p[KeyEpoch].value, p[Salt].value, p[Nonce].value, p[Ct].value,
               p[Part].value, p[Parts].value, if ClientMsgId in p then p[ClientMsgId].value else Undefined))
  }

  function DecodeFrame(value: Value): Result<Frame, WireError> {
    var raw := SnapshotWireObject(value);
    if raw.Err? then Err(raw.error) else DecodeRaw(raw.value)
  }

  /** The checks in their order; the first that fails names its key. */
  function DecodeRaw(r: Raw): Result<Frame, WireError> {
    Checked(
      ReqDir(r.dir), ReqSeq(r.seqNumber), ReqUint(r.v), ReqHexBytes(r.identityId, 16),
      ParseBoundedString(r.sessionId, MAX_ROUTING_STRING, true), ParseBoundedString(r.recordKind, MAX_ROUTING_STRING, true),
      ParseBoundedString(r.msgId, MAX_MSG_ID, false), ReqUint(r.keyEpoch), ReqUint(r.part), ReqUint(r.parts),
      ReqClientMsgId(r.clientMsgId), ReqBytes(r.salt, Some(32)), ReqBytes(r.nonce, Some(12)), ReqBytes(r.ct, None))
  }

  function Checked(
    dir: Option<Utf16>, order: Option<Option<Number>>, v: Option<Number>, identityId: Option<Bytes>,
    sessionId: Option<Utf16>, recordKind: Option<Utf16>, msgId: Option<Utf16>, keyEpoch: Option<Number>,
    part: Option<Number>, parts: Option<Number>, clientMsgId: Option<Option<Utf16>>,
    salt: Option<Bytes>, nonce: Option<Bytes>, ct: Option<Bytes>): Result<Frame, WireError>
  {
    if dir.None? then Err(Bad(Dir))
    else if order.None? then Err(Bad(SeqNumber))
    else if v.None? then Err(Bad(V))
    else if identityId.None? then Err(Bad(IdentityId))
    else if sessionId.None? then Err(Bad(SessionId))
    else if recordKind.None? then Err(Bad(RecordKind))
    else if msgId.None? then Err(Bad(MsgId))
    else if keyEpoch.None? then Err(Bad(KeyEpoch))
    else if part.None? then Err(Bad(Part))
    else if parts.None? then Err(Bad(Parts))
    else if clientMsgId.None? then Err(Bad(ClientMsgId))
    else if salt.None? then Err(Bad(Salt))
    else if nonce.None? then Err(Bad(Nonce))
    else if ct.None? then Err(Bad(Ct))
    else
      Ok(Frame(
        FrameHeader(v.value, identityId.value, sessionId.value, dir.value, recordKind.value, order.value, msgId.value,
                    clientMsgId.value, keyEpoch.value, part.value, parts.value),
        salt.value, nonce.value, ct.value))
  }

  // ---------------------------------------------------------------------------------------------
  // What the boundary accepts
  // ---------------------------------------------------------------------------------------------

  /** The frames the boundary lets through. */
  predicate Deliverable(f: Frame) {
    var h := f.header;
    && SafeUint(h.v) && SafeUint(h.keyEpoch) && SafeUint(h.part) && SafeUint(h.parts)
    && (h.seqNumber.Some? ==> SafeUint(h.seqNumber.value))
    && |h.identityId| == 16 && (h.dir == DIR_IN || h.dir == DIR_OUT)
    && Bounded(h.sessionId, MAX_ROUTING_STRING) && !HasControl(h.sessionId)
    && Bounded(h.recordKind, MAX_ROUTING_STRING) && !HasControl(h.recordKind)
    && Bounded(h.msgId, MAX_MSG_ID)
    && (h.clientMsgId.Some? ==> Bounded(h.clientMsgId.value, MAX_ROUTING_STRING))
    && |f.salt| == 32 && |f.nonce| == 12
  }

  /** The one freedom a sender has in the values: the case of the identity's digits. */
  function Normal(r: Raw): Raw {
    if r.identityId.Str? then r.(identityId := Str(LowerHex(r.identityId.text))) else r
  }

  lemma NumbersDecodeIff(r: Raw, f: Frame)
    ensures ReqUint(r.v) == Some(f.header.v) <==> r.v == RawOf(f).v && SafeUint(f.header.v)
    ensures ReqUint(r.keyEpoch) == Some(f.header.keyEpoch) <==> r.keyEpoch == RawOf(f).keyEpoch && SafeUint(f.header.keyEpoch)
    ensures ReqUint(r.part) == Some(f.header.part) <==> r.part == RawOf(f).part && SafeUint(f.header.part)
    ensures ReqUint(r.parts) == Some(f.header.parts) <==> r.parts == RawOf(f).parts && SafeUint(f.header.parts)
    ensures ReqSeq(r.seqNumber) == Some(f.header.seqNumber)
            <==> r.seqNumber == RawOf(f).seqNumber && (f.header.seqNumber.Some? ==> SafeUint(f.header.seqNumber.value))
  {
  }

  lemma StringsDecodeIff(r: Raw, f: Frame)
    ensures ReqDir(r.dir) == Some(f.header.dir) <==> r.dir == RawOf(f).dir && (f.header.dir == DIR_IN || f.header.dir == DIR_OUT)
    ensures ParseBoundedString(r.sessionId, MAX_ROUTING_STRING, true) == Some(f.header.sessionId)
            <==> r.sessionId == RawOf(f).sessionId && Bounded(f.header.sessionId, MAX_ROUTING_STRING) && !HasControl(f.header.sessionId)
    ensures ParseBoundedString(r.recordKind, MAX_ROUTING_STRING, true) == Some(f.header.recordKind)
            <==> r.recordKind == RawOf(f).recordKind && Bounded(f.header.recordKind, MAX_ROUTING_STRING) && !HasControl(f.header.recordKind)
    ensures ParseBoundedString(r.msgId, MAX_MSG_ID, false) == Some(f.header.msgId)
            <==> r.msgId == RawOf(f).msgId && Bounded(f.header.msgId, MAX_MSG_ID)
    ensures ReqClientMsgId(r.clientMsgId) == Some(f.header.clientMsgId)
            <==> r.clientMsgId == RawOf(f).clientMsgId
                 && (f.header.clientMsgId.Some? ==> Bounded(f.header.clientMsgId.value, MAX_ROUTING_STRING))
  {
  }

  lemma BytesDecodeIff(r: Raw, f: Frame)
    ensures ReqBytes(r.salt, Some(32)) == Some(f.salt) <==> r.salt == RawOf(f).salt && |f.salt| == 32
    ensures ReqBytes(r.nonce, Some(12)) == Some(f.nonce) <==> r.nonce == RawOf(f).nonce && |f.nonce| == 12
    ensures ReqBytes(r.ct, None) == Some(f.ct) <==> r.ct == RawOf(f).ct
    ensures ReqHexBytes(r.identityId, 16) == Some(f.header.identityId)
            <==> Normal(r).identityId == RawOf(f).identityId && |f.header.identityId| == 16
  {
    ReqBytesIff(r.salt, Some(32), f.salt);
    ReqBytesIff(r.nonce, Some(12), f.nonce);
    ReqBytesIff(r.ct, None, f.ct);
    ReqHexIff(r.identityId, 16, f.header.identityId);
  }

  /** The values are accepted exactly when they spell a deliverable frame, and then read as that frame. */
  lemma RawDecodesIff(r: Raw, f: Frame)
    ensures DecodeRaw(r) == Ok(f) <==> Deliverable(f) && Normal(r) == RawOf(f)
  {
    NumbersDecodeIff(r, f);
    StringsDecodeIff(r, f);
    BytesDecodeIff(r, f);
  }

  lemma SnapshotOfObject(r: Raw)
    ensures SnapshotWireObject(Object(ObjectOf(r))) == Ok(r)
  {
    var p := ObjectOf(r);
    ObjectHolds(r);
    NothingMissingIff(p);
    SnapshotOfHeld(p, r);
  }

  /** The properties of `p` are the values of `r`. */
  predicate Held(p: map<Key, Property>, r: Raw) {
    && AllOwn(p)
    && p[V].value == r.v && p[IdentityId].value == r.identityId && p[SessionId].value == r.sessionId
    && p[Dir].value == r.dir && p[RecordKind].value == r.recordKind && p[SeqNumber].value == r.seqNumber
    && p[MsgId].value == r.msgId && p[KeyEpoch].value == r.keyEpoch && p[Salt].value == r.salt
    && p[Nonce].value == r.nonce && p[Ct].value == r.ct && p[Part].value == r.part && p[Parts].value == r.parts
    && (if r.clientMsgId.Undefined? then ClientMsgId !in p else Own(p, ClientMsgId) && p[ClientMsgId].value == r.clientMsgId)
  }

  lemma ObjectHolds(r: Raw)
    ensures Held(ObjectOf(r), r)
  {
  }

  lemma SnapshotOfHeld(p: map<Key, Property>, r: Raw)
    requires Held(p, r) && FirstMissing(p, REQUIRED_WIRE_KEYS).None?
    ensures SnapshotWireObject(Object(p)) == Ok(r)
  {
  }

  lemma EncodingIsNormal(f: Frame)
    ensures Normal(RawOf(f)) == RawOf(f)
  {
    var s := ToHex(f.header.identityId);
    assert forall i :: 0 <= i < |s| ==> LowerDigit(s[i]) == s[i];
    assert LowerHex(s) == s;
  }

  /** Decoding inverts encoding on exactly the deliverable frames. */
  lemma DecodeInvertsEncodeIff(f: Frame)
    ensures DecodeFrame(Object(EncodeFrame(f))) == Ok(f) <==> Deliverable(f)
  {
    SnapshotOfObject(RawOf(f));
    EncodingIsNormal(f);
    RawDecodesIff(RawOf(f), f);
  }

  /**
   * Re-encoding an accepted object yields its own values with the identity in lowercase, whatever other
   * properties it had; and that object is accepted as the same frame.
   */
  lemma ReencodingNormalises(value: Value, f: Frame)
    ensures DecodeFrame(value) == Ok(f) ==>
              && SnapshotWireObject(value).Ok? && EncodeFrame(f) == ObjectOf(Normal(SnapshotWireObject(value).value))
              && DecodeFrame(Object(EncodeFrame(f))) == Ok(f)
  {
    if DecodeFrame(value) == Ok(f) {
      RawDecodesIff(SnapshotWireObject(value).value, f);
      DecodeInvertsEncodeIff(f);
    }
  }

  lemma BoundedIsWritable(s: Utf16)
    requires Bounded(s, MAX_MSG_ID)
    ensures Writable(s)
  {
    Utf8IsAtMostThreefold(s);
  }

  /** No frame that passed the boundary can fail in the additional data, whatever the sender put in it. */
  lemma AadIsTotalPastTheBoundary(value: Value)
    ensures DecodeFrame(value).Ok? ==> Serializable(DecodeFrame(value).value.header)
  {
    if DecodeFrame(value).Ok? {
      var f := DecodeFrame(value).value;
      RawDecodesIff(SnapshotWireObject(value).value, f);
      DeliverableIsSerializable(f);
    }
  }

  lemma DeliverableIsSerializable(f: Frame)
    requires Deliverable(f)
    ensures Serializable(f.header)
  {
    BoundedIsWritable(f.header.sessionId);
    BoundedIsWritable(f.header.recordKind);
    BoundedIsWritable(f.header.msgId);
    if f.header.clientMsgId.Some? {
      BoundedIsWritable(f.header.clientMsgId.value);
    }
  }
}
