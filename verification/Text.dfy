/** Bytes, UTF-16 text and its UTF-8 encoding (section 3 of RFC 3629), as JavaScript strings use them. */
module Text {

  type Byte = b: int | 0 <= b < 256

  type Bytes = seq<Byte>

  /** A UTF-16 code unit. */
  type Unit = u: int | 0 <= u < 0x1_0000

  type Utf16 = seq<Unit>

  predicate High(u: Unit) { 0xD800 <= u <= 0xDBFF }

  predicate Low(u: Unit) { 0xDC00 <= u <= 0xDFFF }

  /** Every surrogate is half of a pair. */
  predicate WellFormed(text: Utf16) {
    && (forall i :: 0 <= i < |text| && High(text[i]) ==> i + 1 < |text| && Low(text[i + 1]))
    && (forall i :: 0 <= i < |text| && Low(text[i]) ==> 0 < i && High(text[i - 1]))
  }

  /** The scan for lone surrogates of `assertUnicodeScalars` and `hasLoneSurrogate`. */
  method HasLoneSurrogate(text: Utf16) returns (lone: bool)
    ensures lone <==> !WellFormed(text)
  {
    var i := 0;
    while i < |text|
      invariant 0 <= i <= |text|
      invariant forall k :: 0 <= k < i && High(text[k]) ==> k + 1 < i && Low(text[k + 1])
      invariant forall k :: 0 <= k < i && Low(text[k]) ==> 0 < k && High(text[k - 1])
      invariant i > 0 ==> !High(text[i - 1])
    {
      if High(text[i]) {
        if !(i + 1 < |text| && Low(text[i + 1])) {
          return true;
        }
        i := i + 1;
      } else if Low(text[i]) {
        return true;
      }
      i := i + 1;
    }
    return false;
  }

  /** How many units the first scalar takes. */
  function HeadUnits(text: Utf16): (n: nat)
    requires text != []
    ensures 1 <= n <= |text|
  {
    if |text| > 1 && High(text[0]) && Low(text[1]) then 2 else 1
  }

  /** The first scalar; TextEncoder replaces a lone surrogate by U+FFFD. */
  function HeadScalar(text: Utf16): (c: nat)
    requires text != []
    ensures c < 0x11_0000
  {
    var first: int := text[0];
    if HeadUnits(text) == 2 then
      var second: int := text[1];
      0x1_0000 + (first - 0xD800) * 0x400 + (second - 0xDC00)
    else if High(text[0]) || Low(text[0]) then 0xFFFD
    else first
  }

  function EncodeScalar(c: nat): Bytes
    requires c < 0x11_0000
  {
    if c < 0x80 then [c]
    else if c < 0x800 then [0xC0 + c / 0x40, 0x80 + c % 0x40]
    else if c < 0x1_0000 then [0xE0 + c / 0x1000, 0x80 + c / 0x40 % 0x40, 0x80 + c % 0x40]
    else [0xF0 + c / 0x4_0000, 0x80 + c / 0x1000 % 0x40, 0x80 + c / 0x40 % 0x40, 0x80 + c % 0x40]
  }

  function Utf8(text: Utf16): Bytes {
    if text == [] then [] else EncodeScalar(HeadScalar(text)) + Utf8(text[HeadUnits(text)..])
  }

  /** The value of a sequence that starts with an encoded scalar: its length is told by its first byte. */
  function ScalarLength(first: Byte): nat {
    if first < 0x80 then 1 else if first < 0xE0 then 2 else if first < 0xF0 then 3 else 4
  }

  function ScalarValue(bytes: seq<int>): int {
    if |bytes| == 1 then bytes[0]
    else if |bytes| == 2 then (bytes[0] - 0xC0) * 0x40 + (bytes[1] - 0x80)
    else if |bytes| == 3 then (bytes[0] - 0xE0) * 0x1000 + (bytes[1] - 0x80) * 0x40 + (bytes[2] - 0x80)
    else if |bytes| == 4 then
      (bytes[0] - 0xF0) * 0x4_0000 + (bytes[1] - 0x80) * 0x1000 + (bytes[2] - 0x80) * 0x40 + (bytes[3] - 0x80)
    else -1
  }

  lemma ScalarIsReadBack(c: nat)
    requires c < 0x11_0000
    ensures var e := EncodeScalar(c); 0 < |e| == ScalarLength(e[0]) && ScalarValue(e) == c
  {
    assert c / 0x40 / 0x40 == c / 0x1000 && c / 0x1000 / 0x40 == c / 0x4_0000;
  }

  lemma ScalarsArePrefixFree(c: nat, d: nat, r: Bytes, s: Bytes)
    requires c < 0x11_0000 && d < 0x11_0000 && EncodeScalar(c) + r == EncodeScalar(d) + s
    ensures c == d && r == s
  {
    var e, f := EncodeScalar(c), EncodeScalar(d);
    ScalarIsReadBack(c);
    ScalarIsReadBack(d);
    assert (e + r)[0] == e[0] && (f + s)[0] == f[0];
    assert (e + r)[..|e|] == e && (f + s)[..|f|] == f;
    assert (e + r)[|e|..] == r && (f + s)[|f|..] == s;
  }

  /** In well-formed text the first scalar tells its units. */
  lemma HeadsAreEqual(a: Utf16, b: Utf16)
    requires a != [] && b != [] && WellFormed(a) && WellFormed(b) && HeadScalar(a) == HeadScalar(b)
    ensures HeadUnits(a) == HeadUnits(b) && a[..HeadUnits(a)] == b[..HeadUnits(b)]
  {
    assert !Low(a[0]) && !Low(b[0]);
    if HeadUnits(a) == 2 && HeadUnits(b) == 2 {
      assert a[..2] == [a[0], a[1]] && b[..2] == [b[0], b[1]];
    } else {
      assert a[..1] == [a[0]] && b[..1] == [b[0]];
    }
  }

  lemma TailIsWellFormed(text: Utf16)
    requires text != [] && WellFormed(text)
    ensures WellFormed(text[HeadUnits(text)..])
  {
    var n := HeadUnits(text);
    forall i | 0 <= i < |text[n..]| && Low(text[n..][i]) ensures 0 < i && High(text[n..][i - 1]) {
      assert Low(text[n + i]);
    }
  }

  /** UTF-8 is injective on texts without lone surrogates. */
  lemma {:induction false} Utf8IsInjective(a: Utf16, b: Utf16)
    requires WellFormed(a) && WellFormed(b) && Utf8(a) == Utf8(b)
    ensures a == b
  {
    if a != [] && b != [] {
      var m, n := HeadUnits(a), HeadUnits(b);
      ScalarsArePrefixFree(HeadScalar(a), HeadScalar(b), Utf8(a[m..]), Utf8(b[n..]));
      HeadsAreEqual(a, b);
      TailIsWellFormed(a);
      TailIsWellFormed(b);
      Utf8IsInjective(a[m..], b[n..]);
      assert a == a[..m] + a[m..] && b == b[..n] + b[n..];
    } else if a != [] {
      ScalarIsReadBack(HeadScalar(a));
    } else if b != [] {
      ScalarIsReadBack(HeadScalar(b));
    }
  }

  /** Without the scan it would not be: lone surrogates all encode as the replacement character. */
  lemma LoneSurrogatesCollapse(a: Unit, b: Unit)
    requires (High(a) || Low(a)) && (High(b) || Low(b))
    ensures Utf8([a]) == Utf8([b])
  {
    assert [a][1..] == [] && [b][1..] == [];
  }

  lemma {:induction false} Utf8IsAtMostThreefold(text: Utf16)
    ensures |Utf8(text)| <= 3 * |text|
  {
    if text != [] {
      Utf8IsAtMostThreefold(text[HeadUnits(text)..]);
    }
  }
}
