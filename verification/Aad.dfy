/** The canonical additional data of a frame header (packages/clawsec/src/aad.ts). */
module Aad {
  import opened Common
  import opened Text
  import opened Canonical

  const DIR_IN: Utf16 := [0x69, 0x6E]
  const DIR_OUT: Utf16 := [0x6F, 0x75, 0x74]

  datatype FrameHeader = FrameHeader(
    v: Number,
    identityId: Bytes,
    sessionId: Utf16,
    dir: Utf16,
    recordKind: Utf16,
    seqNumber: Option<Number>,
    msgId: Utf16,
    clientMsgId: Option<Utf16>,
    keyEpoch: Number,
    part: Number,
    parts: Number)

  datatype AadError = BadIdentityLength | BadDir | BadField(error: WriteError)

  /** The headers the serializer accepts. */
  predicate Serializable(h: FrameHeader) {
    && |h.identityId| == 16 && (h.dir == DIR_IN || h.dir == DIR_OUT)
    && SafeUint(h.v) && SafeUint(h.keyEpoch) && SafeUint(h.part) && SafeUint(h.parts)
    && (h.seqNumber.Some? ==> SafeUint(h.seqNumber.value))
    && Writable(h.sessionId) && Writable(h.recordKind) && Writable(h.msgId)
    && (h.clientMsgId.Some? ==> Writable(h.clientMsgId.value))
  }

  function SeqValue(h: FrameHeader): Option<nat>
    requires h.seqNumber.Some? ==> SafeUint(h.seqNumber.value)
  {
    if h.seqNumber.Some? then Some(h.seqNumber.value.value) else None
  }

  /** The fields in their fixed order. */
  function Fields(h: FrameHeader): (items: seq<Item>)
    requires Serializable(h)
    ensures |items| == 11
  {
    [UintItem(h.v.value), Required(h.identityId), StrItem(h.sessionId), StrItem(h.dir), StrItem(h.recordKind),
     OptionalUintItem(SeqValue(h)), StrItem(h.msgId),
     OptionalStrItem(h.clientMsgId), UintItem(h.keyEpoch.value), UintItem(h.part.value), UintItem(h.parts.value)]
  }

  function AadOf(h: FrameHeader): Bytes
    requires Serializable(h)
  {
    EncodedAll(Fields(h))
  }

  lemma DirsAreWritable()
    ensures Writable(DIR_IN) && Writable(DIR_OUT)
  {
    Utf8IsAtMostThreefold(DIR_IN);
    Utf8IsAtMostThreefold(DIR_OUT);
  }

  /** The version, the identity and the session. */
  method WriteSession(w: CanonicalWriter, h: FrameHeader) returns (error: Option<WriteError>)
    requires w.Valid() && w.Open()
    modifies w`chunks, w`items
    ensures w.Valid() && (error.None? <==> SafeUint(h.v) && |h.identityId| <= U32_MAX && Writable(h.sessionId))
    ensures error.None? ==> w.items == old(w.items) + [UintItem(h.v.value), Required(h.identityId), StrItem(h.sessionId)]
  {
    var e := w.Uint(h.v);
    if e.Err? { return Some(e.error); }
    e := w.Bytes(h.identityId);
    if e.Err? { return Some(e.error); }
    e := w.Str(h.sessionId);
    return if e.Err? then Some(e.error) else None;
  }

  /** The direction and the kind. */
  method WriteKind(w: CanonicalWriter, h: FrameHeader) returns (error: Option<WriteError>)
    requires w.Valid() && w.Open()
    modifies w`chunks, w`items
    ensures w.Valid()
    ensures error.None? <==> Writable(h.dir) && Writable(h.recordKind)
    ensures error.None? ==> w.items == old(w.items) + [StrItem(h.dir), StrItem(h.recordKind)]
  {
    var e := w.Str(h.dir);
    if e.Err? { return Some(e.error); }
    e := w.Str(h.recordKind);
    return if e.Err? then Some(e.error) else None;
  }

  /** The order. */
  method WriteOrder(w: CanonicalWriter, h: FrameHeader) returns (error: Option<WriteError>)
    requires w.Valid() && w.Open()
    modifies w`chunks, w`items
    ensures w.Valid() && (error.None? <==> h.seqNumber.Some? ==> SafeUint(h.seqNumber.value))
    ensures error.None? ==> w.items == old(w.items) + [OptionalUintItem(SeqValue(h))]
  {
    var e := w.OptionalUint(h.seqNumber);
    return if e.Err? then Some(e.error) else None;
  }

  /** The message ids. */
  method WriteMessage(w: CanonicalWriter, h: FrameHeader) returns (error: Option<WriteError>)
    requires w.Valid() && w.Open()
    modifies w`chunks, w`items
    ensures w.Valid()
    ensures error.None? <==> Writable(h.msgId) && (h.clientMsgId.Some? ==> Writable(h.clientMsgId.value))
    ensures error.None? ==> w.items == old(w.items) + [StrItem(h.msgId), OptionalStrItem(h.clientMsgId)]
  {
    var e := w.Str(h.msgId);
    if e.Err? { return Some(e.error); }
    e := w.OptionalStr(h.clientMsgId);
    return if e.Err? then Some(e.error) else None;
  }

  /** The epoch and the chunk coordinates. */
  method WriteChunk(w: CanonicalWriter, h: FrameHeader) returns (error: Option<WriteError>)
    requires w.Valid() && w.Open()
    modifies w`chunks, w`items
    ensures w.Valid() && (error.None? <==> SafeUint(h.keyEpoch) && SafeUint(h.part) && SafeUint(h.parts))
    ensures error.None? ==>
              w.items == old(w.items) + [UintItem(h.keyEpoch.value), UintItem(h.part.value), UintItem(h.parts.value)]
  {
    var e := w.Uint(h.keyEpoch);
    if e.Err? { return Some(e.error); }
    e := w.Uint(h.part);
    if e.Err? { return Some(e.error); }
    e := w.Uint(h.parts);
    return if e.Err? then Some(e.error) else None;
  }

  lemma FieldsInOrder(h: FrameHeader)
    requires Serializable(h)
    ensures Fields(h) == [] + [UintItem(h.v.value), Required(h.identityId), StrItem(h.sessionId)]
                         + [StrItem(h.dir), StrItem(h.recordKind)] + [OptionalUintItem(SeqValue(h))]
                         + [StrItem(h.msgId), OptionalStrItem(h.clientMsgId)]
                         + [UintItem(h.keyEpoch.value), UintItem(h.part.value), UintItem(h.parts.value)]
  {
  }

  /** The eleven writes. */
  method WriteFields(w: CanonicalWriter, h: FrameHeader) returns (error: Option<WriteError>)
    requires w.Valid() && w.Open() && w.items == [] && |h.identityId| == 16 && (h.dir == DIR_IN || h.dir == DIR_OUT)
    modifies w`chunks, w`items
    ensures w.Valid() && (error.None? <==> Serializable(h))
    ensures error.None? ==> w.items == Fields(h)
  {
    DirsAreWritable();
    error := WriteSession(w, h);
    if error.Some? { return; }
    error := WriteKind(w, h);
    if error.Some? { return; }
    error := WriteOrder(w, h);
    if error.Some? { return; }
    error := WriteMessage(w, h);
    if error.Some? { return; }
    error := WriteChunk(w, h);
    if error.None? {
      FieldsInOrder(h);
    }
  }

  /** The checks, a fresh writer, the eleven writes and the finish. */
  method CanonicalAad(h: FrameHeader) returns (r: Result<Bytes, AadError>)
    ensures r.Ok? <==> Serializable(h)
    ensures r.Ok? ==> r.value == AadOf(h)
    ensures |h.identityId| != 16 ==> r == Err(BadIdentityLength)
    ensures |h.identityId| == 16 && h.dir != DIR_IN && h.dir != DIR_OUT ==> r == Err(BadDir)
  {
    if |h.identityId| != 16 {
      return Err(BadIdentityLength);
    }
    if h.dir != DIR_IN && h.dir != DIR_OUT {
      return Err(BadDir);
    }
    var w := new CanonicalWriter();
    var error := WriteFields(w, h);
    if error.Some? {
      return Err(BadField(error.value));
    }
    var bytes := w.Finish();
    return Ok(bytes.value);
  }

  lemma KindOfField(h: FrameHeader, i: nat)
    requires Serializable(h) && i < 11
    ensures Fields(h)[i].Required? <==> i != 5 && i != 7
  {
  }

  lemma TextFieldsFit(h: FrameHeader)
    requires Serializable(h)
    ensures Encodable(StrItem(h.sessionId)) && Encodable(StrItem(h.dir)) && Encodable(StrItem(h.recordKind))
    ensures Encodable(StrItem(h.msgId)) && Encodable(OptionalStrItem(h.clientMsgId))
  {
    DirsAreWritable();
  }

  lemma NumberFieldsFit(h: FrameHeader)
    requires Serializable(h)
    ensures Encodable(UintItem(h.v.value)) && Encodable(Required(h.identityId)) && Encodable(OptionalUintItem(SeqValue(h)))
    ensures Encodable(UintItem(h.keyEpoch.value)) && Encodable(UintItem(h.part.value)) && Encodable(UintItem(h.parts.value))
  {
  }

  lemma FieldsAreEncodable(h: FrameHeader, i: nat)
    requires Serializable(h) && i < 11
    ensures Encodable(Fields(h)[i])
  {
    TextFieldsFit(h);
    NumberFieldsFit(h);
  }

  lemma UintsAreInjective(m: nat, n: nat)
    requires m <= MAX_SAFE_INTEGER && n <= MAX_SAFE_INTEGER && BigEndian(m, 8) == BigEndian(n, 8)
    ensures m == n
  {
    Widths();
    BigEndianIsInjective(m, n, 8);
  }

  lemma OptionalFieldsAreInjective(g: FrameHeader, h: FrameHeader)
    requires Serializable(g) && Serializable(h) && Fields(g)[5] == Fields(h)[5] && Fields(g)[7] == Fields(h)[7]
    ensures g.seqNumber == h.seqNumber && g.clientMsgId == h.clientMsgId
  {
    if g.seqNumber.Some? {
      UintsAreInjective(g.seqNumber.value.value, h.seqNumber.value.value);
    }
    if g.clientMsgId.Some? {
      Utf8IsInjective(g.clientMsgId.value, h.clientMsgId.value);
    }
  }

  lemma FieldsAreInjective(g: FrameHeader, h: FrameHeader)
    requires Serializable(g) && Serializable(h) && Fields(g) == Fields(h)
    ensures g == h
  {
    var a, b := Fields(g), Fields(h);
    assert forall i :: 0 <= i < 11 ==> a[i] == b[i];
    UintsAreInjective(g.v.value, h.v.value);
    UintsAreInjective(g.keyEpoch.value, h.keyEpoch.value);
    UintsAreInjective(g.part.value, h.part.value);
    UintsAreInjective(g.parts.value, h.parts.value);
    DirsAreWritable();
    assert a[3] == b[3] && a[1] == b[1];
    Utf8IsInjective(g.sessionId, h.sessionId);
    Utf8IsInjective(g.dir, h.dir);
    Utf8IsInjective(g.recordKind, h.recordKind);
    Utf8IsInjective(g.msgId, h.msgId);
    OptionalFieldsAreInjective(g, h);
  }

  /** Distinct headers always have distinct additional data: no bytes can be shifted between fields. */
  lemma AadIsInjective(g: FrameHeader, h: FrameHeader)
    requires Serializable(g) && Serializable(h) && AadOf(g) == AadOf(h)
    ensures g == h
  {
    forall i | 0 <= i < 11
      ensures Encodable(Fields(g)[i]) && Encodable(Fields(h)[i]) && Fields(g)[i].Required? == Fields(h)[i].Required?
    {
      FieldsAreEncodable(g, i);
      FieldsAreEncodable(h, i);
      KindOfField(g, i);
      KindOfField(h, i);
    }
    RecordsAreInjective(Fields(g), Fields(h));
    FieldsAreInjective(g, h);
  }
}
