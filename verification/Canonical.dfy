/** The canonical length-prefixed field writer (packages/clawsec/src/canonical.ts). */
module Canonical {
  import opened Common
  import opened Text

  const U32_MAX := 0xFFFF_FFFF

  /** A JavaScript number as the writer and the wire checks tell numbers apart. */
  datatype Number = Int(value: int) | NegativeZero | NotInteger

  predicate SafeUint(n: Number) { n.Int? && 0 <= n.value <= MAX_SAFE_INTEGER }

  /** Big-endian bytes of `n` in `width` places. */
  function BigEndian(n: nat, width: nat): (bytes: Bytes)
    ensures |bytes| == width
  {
    if width == 0 then [] else BigEndian(n / 256, width - 1) + [n % 256]
  }

  lemma {:induction false} BigEndianIsInjective(m: nat, n: nat, width: nat)
    requires BigEndian(m, width) == BigEndian(n, width) && m < Power256(width) && n < Power256(width)
    ensures m == n
  {
    if width > 0 {
      var a, b := BigEndian(m, width), BigEndian(n, width);
      assert a[..width - 1] == BigEndian(m / 256, width - 1) && b[..width - 1] == BigEndian(n / 256, width - 1);
      assert a[width - 1] == m % 256 && b[width - 1] == n % 256;
      BigEndianIsInjective(m / 256, n / 256, width - 1);
    }
  }

  function Power256(width: nat): nat { if width == 0 then 1 else 256 * Power256(width - 1) }

  lemma Widths()
    ensures Power256(4) == U32_MAX + 1 && MAX_SAFE_INTEGER < Power256(8)
  {
    assert Power256(4) == 256 * Power256(3) == 256 * 256 * Power256(2);
    assert Power256(8) == 256 * Power256(7) == 256 * 256 * Power256(6) == 256 * 256 * 256 * Power256(5);
  }

  /** `[u32 BE length][bytes]` */
  function Prefixed(bytes: Bytes): Bytes { BigEndian(|bytes|, 4) + bytes }

  /** One field: always present, or behind a presence byte. */
  datatype Item = Required(bytes: Bytes) | Optional(content: Option<Bytes>)

  function Encoded(item: Item): Bytes {
    match item
    case Required(bytes) => Prefixed(bytes)
    case Optional(None) => [0]
    case Optional(Some(bytes)) => [1] + Prefixed(bytes)
  }

  predicate Encodable(item: Item) {
    match item
    case Required(bytes) => |bytes| <= U32_MAX
    case Optional(content) => content.Some? ==> |content.value| <= U32_MAX
  }

  lemma PrefixedIsPrefixFree(a: Bytes, b: Bytes, r: Bytes, s: Bytes)
    requires |a| <= U32_MAX && |b| <= U32_MAX && Prefixed(a) + r == Prefixed(b) + s
    ensures a == b && r == s
  {
    PrefixedParts(a, r);
    PrefixedParts(b, s);
    Widths();
    BigEndianIsInjective(|a|, |b|, 4);
    assert (a + r)[..|a|] == a && (b + s)[..|b|] == b;
    assert (a + r)[|a|..] == r && (b + s)[|b|..] == s;
  }

  lemma PrefixedParts(a: Bytes, r: Bytes)
    requires |a| <= U32_MAX
    ensures var x := Prefixed(a) + r; |x| >= 4 && x[..4] == BigEndian(|a|, 4) && x[4..] == a + r
  {
  }

  /** Two fields of one kind: what follows a field never shifts its boundary. */
  lemma ItemIsPrefixFree(a: Item, b: Item, r: Bytes, s: Bytes)
    requires Encodable(a) && Encodable(b) && a.Required? == b.Required? && Encoded(a) + r == Encoded(b) + s
    ensures a == b && r == s
  {
    if a.Required? {
      PrefixedIsPrefixFree(a.bytes, b.bytes, r, s);
    } else {
      OptionalIsPrefixFree(a.content, b.content, r, s);
    }
  }

  lemma OptionalIsPrefixFree(a: Option<Bytes>, b: Option<Bytes>, r: Bytes, s: Bytes)
    requires Encodable(Optional(a)) && Encodable(Optional(b)) && Encoded(Optional(a)) + r == Encoded(Optional(b)) + s
    ensures a == b && r == s
  {
    PresenceByte(a, r);
    PresenceByte(b, s);
    if a.Some? {
      PrefixedIsPrefixFree(a.value, b.value, r, s);
    }
  }

  lemma PresenceByte(a: Option<Bytes>, r: Bytes)
    ensures var x := Encoded(Optional(a)) + r;
            |x| > 0 && x[0] == (if a.Some? then 1 else 0) && x[1..] == (if a.Some? then Prefixed(a.value) else []) + r
  {
    var tail := (if a.Some? then Prefixed(a.value) else []) + r;
    assert Encoded(Optional(a)) + r == [if a.Some? then 1 else 0] + tail;
  }

  /** The bytes of a whole record. */
  function EncodedAll(items: seq<Item>): Bytes {
    if items == [] then [] else Encoded(items[0]) + EncodedAll(items[1..])
  }

  /** Records with the same kinds of fields in the same order are told apart by their bytes. */
  lemma {:induction false} RecordsAreInjective(a: seq<Item>, b: seq<Item>)
    requires |a| == |b| && forall i :: 0 <= i < |a| ==> Encodable(a[i]) && Encodable(b[i]) && a[i].Required? == b[i].Required?
    requires EncodedAll(a) == EncodedAll(b)
    ensures a == b
  {
    if a != [] {
      ItemIsPrefixFree(a[0], b[0], EncodedAll(a[1..]), EncodedAll(b[1..]));
      RecordsAreInjective(a[1..], b[1..]);
      assert a == [a[0]] + a[1..] && b == [b[0]] + b[1..];
    }
  }

  lemma {:induction false} EncodedAllSnoc(items: seq<Item>, item: Item)
    ensures EncodedAll(items + [item]) == EncodedAll(items) + Encoded(item)
  {
    if items == [] {
      assert [item][1..] == [];
    } else {
      assert (items + [item])[1..] == items[1..] + [item];
      EncodedAllSnoc(items[1..], item);
      AppendAssociates(Encoded(items[0]), EncodedAll(items[1..]), Encoded(item));
    }
  }

  /** The fields the writer's methods write. */
  function UintItem(n: nat): Item { Required(BigEndian(n, 8)) }

  function StrItem(text: Utf16): Item { Required(Utf8(text)) }

  function OptionalUintItem(n: Option<nat>): Item {
    Optional(if n.Some? then Some(BigEndian(n.value, 8)) else None)
  }

  function OptionalStrItem(text: Option<Utf16>): Item {
    Optional(if text.Some? then Some(Utf8(text.value)) else None)
  }

  predicate Writable(text: Utf16) { WellFormed(text) && |Utf8(text)| <= U32_MAX }

  // ---------------------------------------------------------------------------------------------
  // The writer
  // ---------------------------------------------------------------------------------------------

  datatype WriteError = Destroyed | Finished | TooLarge | NotSafeUint | LoneSurrogate

  class CanonicalWriter {
    var chunks: seq<Bytes>
    var finishedBytes: Option<Bytes>
    var destroyed: bool
    /** The fields written so far. */
    ghost var items: seq<Item>

    ghost predicate Valid()
      reads this
    {
      && (finishedBytes.None? && !destroyed ==> Flatten(chunks) == EncodedAll(items))
      && (finishedBytes.Some? ==> finishedBytes.value == EncodedAll(items) && chunks == [] && !destroyed)
      && (destroyed ==> chunks == [])
    }

    predicate Open()
      reads this
    {
      !destroyed && finishedBytes.None?
    }

    constructor ()
      ensures Valid() && Open() && items == []
    {
      chunks, finishedBytes, destroyed, items := [], None, false, [];
    }

    function Closed(): WriteError
      reads this
    {
      if destroyed then Destroyed else Finished
    }

    /** A field whose value has passed its checks. */
    method Append(pieces: seq<Bytes>, ghost item: Item)
      requires Valid() && Open() && Flatten(pieces) == Encoded(item)
      modifies this`chunks, this`items
      ensures Valid() && Open() && items == old(items) + [item]
    {
      FlattenAppend(chunks, pieces);
      EncodedAllSnoc(items, item);
      chunks := chunks + pieces;
      items := items + [item];
    }

    /** Encode the length and snapshot the value. */
    static method EncodedBytes(value: Bytes) returns (r: Result<seq<Bytes>, WriteError>)
      ensures r.Ok? <==> |value| <= U32_MAX
      ensures r.Ok? ==> Flatten(r.value) == Prefixed(value)
      ensures r.Err? ==> r.error == TooLarge
    {
      if |value| > U32_MAX {
        return Err(TooLarge);
      }
      FlattenCons(BigEndian(|value|, 4), [value]);
      FlattenCons(value, []);
      assert [value] + [] == [value] && [BigEndian(|value|, 4)] + [value] == [BigEndian(|value|, 4), value];
      assert value + [] == value;
      return Ok([BigEndian(|value|, 4), value]);
    }

    static method EncodedUint(value: Number) returns (r: Result<seq<Bytes>, WriteError>)
      ensures r.Ok? <==> SafeUint(value)
      ensures r.Ok? ==> Flatten(r.value) == Encoded(UintItem(value.value))
      ensures r.Err? ==> r.error == NotSafeUint
    {
      if !value.Int? || value.value < 0 || value.value > MAX_SAFE_INTEGER {
        return Err(NotSafeUint);
      }
      r := EncodedBytes(BigEndian(value.value, 8));
    }

    /** A field behind the presence byte 1. */
    method AppendPresent(pieces: seq<Bytes>, ghost content: Bytes)
      requires Valid() && Open() && Flatten(pieces) == Prefixed(content)
      modifies this`chunks, this`items
      ensures Valid() && Open() && items == old(items) + [Optional(Some(content))]
    {
      FlattenCons([1], pieces);
      Append([[1]] + pieces, Optional(Some(content)));
    }

    method AppendAbsent()
      requires Valid() && Open()
      modifies this`chunks, this`items
      ensures Valid() && Open() && items == old(items) + [Optional(None)]
    {
      FlattenCons([0], []);
      assert [[0]] + [] == [[0]];
      Append([[0]], Optional(None));
    }

    method Bytes(value: Bytes) returns (r: Result<(), WriteError>)
      requires Valid()
      modifies this`chunks, this`items
      ensures Valid() && (r.Ok? <==> Open() && |value| <= U32_MAX)
      ensures items == if r.Ok? then old(items) + [Required(value)] else old(items)
      ensures r.Err? ==> chunks == old(chunks) && r.error == if Open() then TooLarge else Closed()
    {
      if !Open() {
        return Err(Closed());
      }
      var e := EncodedBytes(value);
      if e.Err? {
        return Err(e.error);
      }
      Append(e.value, Required(value));
      return Ok(());
    }

    method Str(value: Utf16) returns (r: Result<(), WriteError>)
      requires Valid()
      modifies this`chunks, this`items
      ensures Valid() && (r.Ok? <==> Open() && Writable(value))
      ensures items == if r.Ok? then old(items) + [StrItem(value)] else old(items)
      ensures r.Err? ==> chunks == old(chunks)
                         && r.error == if !Open() then Closed() else if WellFormed(value) then TooLarge else LoneSurrogate
    {
      if !Open() {
        return Err(Closed());
      }
      var lone := HasLoneSurrogate(value);
      if lone {
        return Err(LoneSurrogate);
      }
      var e := EncodedBytes(Utf8(value));
      if e.Err? {
        return Err(e.error);
      }
      Append(e.value, StrItem(value));
      return Ok(());
    }

    method Uint(value: Number) returns (r: Result<(), WriteError>)
      requires Valid()
      modifies this`chunks, this`items
      ensures Valid() && (r.Ok? <==> Open() && SafeUint(value))
      ensures items == if r.Ok? then old(items) + [UintItem(value.value)] else old(items)
      ensures r.Err? ==> chunks == old(chunks) && r.error == if Open() then NotSafeUint else Closed()
    {
      if !Open() {
        return Err(Closed());
      }
      var e := EncodedUint(value);
      if e.Err? {
        return Err(e.error);
      }
      Append(e.value, UintItem(value.value));
      return Ok(());
    }

    method OptionalUint(value: Option<Number>) returns (r: Result<(), WriteError>)
      requires Valid()
      modifies this`chunks, this`items
      ensures Valid() && (r.Ok? <==> Open() && (value.Some? ==> SafeUint(value.value)))
      ensures items == if r.Ok? then old(items) + [OptionalUintItem(if value.Some? then Some(value.value.value) else None)]
                       else old(items)
      ensures r.Err? ==> chunks == old(chunks) && r.error == if Open() then NotSafeUint else Closed()
    {
      if !Open() {
        return Err(Closed());
      }
      if value.None? {
        AppendAbsent();
        return Ok(());
      }
      var e := EncodedUint(value.value);
      if e.Err? {
        return Err(e.error);
      }
      AppendPresent(e.value, BigEndian(value.value.value, 8));
      return Ok(());
    }

    method OptionalStr(value: Option<Utf16>) returns (r: Result<(), WriteError>)
      requires Valid()
      modifies this`chunks, this`items
      ensures Valid() && (r.Ok? <==> Open() && (value.Some? ==> Writable(value.value)))
      ensures items == if r.Ok? then old(items) + [OptionalStrItem(value)] else old(items)
      ensures r.Err? ==> chunks == old(chunks)
    {
      if !Open() {
        return Err(Closed());
      }
      if value.None? {
        AppendAbsent();
        return Ok(());
      }
      var lone := HasLoneSurrogate(value.value);
      if lone {
        return Err(LoneSurrogate);
      }
      var e := EncodedBytes(Utf8(value.value));
      if e.Err? {
        return Err(e.error);
      }
      AppendPresent(e.value, Utf8(value.value));
      return Ok(());
    }

    method OptionalBytes(value: Option<Bytes>) returns (r: Result<(), WriteError>)
      requires Valid()
      modifies this`chunks, this`items
      ensures Valid() && (r.Ok? <==> Open() && (value.Some? ==> |value.value| <= U32_MAX))
      ensures items == if r.Ok? then old(items) + [Optional(value)] else old(items)
      ensures r.Err? ==> chunks == old(chunks)
    {
      if !Open() {
        return Err(Closed());
      }
      if value.None? {
        AppendAbsent();
        return Ok(());
      }
      var e := EncodedBytes(value.value);
      if e.Err? {
        return Err(e.error);
      }
      AppendPresent(e.value, value.value);
      return Ok(());
    }

    /** Seal the writer; every call returns the same bytes, those of the fields written before the first. */
    method Finish() returns (r: Result<Bytes, WriteError>)
      requires Valid()
      modifies this`chunks, this`finishedBytes
      ensures Valid() && (r.Ok? <==> !destroyed)
      ensures r.Ok? ==> r.value == EncodedAll(items) && finishedBytes == Some(r.value)
      ensures r.Err? ==> r.error == Destroyed && chunks == old(chunks) && finishedBytes == old(finishedBytes)
    {
      if destroyed {
        return Err(Destroyed);
      }
      if finishedBytes.None? {
        finishedBytes := Some(Flatten(chunks));
        chunks := [];
      }
      return Ok(finishedBytes.value);
    }

    /** After this neither fields nor bytes remain and every further use is refused. */
    method Destroy()
      requires Valid()
      modifies this`chunks, this`finishedBytes, this`destroyed
      ensures Valid() && destroyed && chunks == [] && finishedBytes.None?
    {
      if destroyed {
        return;
      }
      chunks, finishedBytes, destroyed := [], None, true;
    }
  }
}
