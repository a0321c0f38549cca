/** Unpadded base64url (sections 3.5 and 5 of RFC 4648) over btoa and atob (packages/clawsec/src/base64url.ts). */
module Base64url {
  import opened Common
  import opened Text

  /** A six-bit group. */
  type Sextet = v: int | 0 <= v < 64

  /** The URL-safe letter of a group. */
  function Letter(v: Sextet): Unit {
    if v < 26 then 0x41 + v
    else if v < 52 then 0x61 + (v - 26)
    else if v < 62 then 0x30 + (v - 52)
    else if v == 62 then 0x2D
    else 0x5F
  }

  /** The group of a letter, or None outside the alphabet. */
  function GroupOf(u: Unit): Option<Sextet> {
    if 0x41 <= u <= 0x5A then Some(u - 0x41)
    else if 0x61 <= u <= 0x7A then Some(u - 0x61 + 26)
    else if 0x30 <= u <= 0x39 then Some(u - 0x30 + 52)
    else if u == 0x2D then Some(62)
    else if u == 0x5F then Some(63)
    else None
  }

  predicate AllLetters(s: Utf16) { forall i :: 0 <= i < |s| ==> GroupOf(s[i]).Some? }

  function Letters(g: seq<Sextet>): Utf16 { seq(|g|, i requires 0 <= i < |g| => Letter(g[i])) }

  function Groups(s: Utf16): seq<Sextet>
    requires AllLetters(s)
  {
    seq(|s|, i requires 0 <= i < |s| => GroupOf(s[i]).value)
  }

  lemma LettersAndGroups(g: seq<Sextet>, s: Utf16)
    ensures AllLetters(Letters(g)) && Groups(Letters(g)) == g
    ensures AllLetters(s) ==> Letters(Groups(s)) == s
  {
  }

  /** The bits of the bytes in groups of six, the last filled up with zeros. */
  function Split(bytes: Bytes): seq<Sextet> {
    if bytes == [] then []
    else if |bytes| == 1 then [bytes[0] / 4, bytes[0] % 4 * 16]
    else if |bytes| == 2 then [bytes[0] / 4, bytes[0] % 4 * 16 + bytes[1] / 16, bytes[1] % 16 * 4]
    else Split3(bytes[0], bytes[1], bytes[2]) + Split(bytes[3..])
  }

  function Split3(a: Byte, b: Byte, c: Byte): seq<Sextet> { [a / 4, a % 4 * 16 + b / 16, b % 16 * 4 + c / 64, c % 64] }

  /** The whole bytes in a sequence of groups; bits beyond the last whole byte are dropped. */
  function Join(g: seq<Sextet>): Bytes
    requires |g| % 4 != 1
  {
    if g == [] then []
    else if |g| == 2 then Join2(g[0], g[1])
    else if |g| == 3 then Join3(g[0], g[1], g[2])
    else Join4(g[0], g[1], g[2], g[3]) + Join(g[4..])
  }

  function Join2(p: Sextet, q: Sextet): Bytes { [p * 4 + q / 16] }

  function Join3(p: Sextet, q: Sextet, r: Sextet): Bytes { [p * 4 + q / 16, q % 16 * 16 + r / 4] }

  function Join4(p: Sextet, q: Sextet, r: Sextet, s: Sextet): Bytes { [p * 4 + q / 16, q % 16 * 16 + r / 4, r % 4 * 64 + s] }

  /** btoa with its last two letters replaced and the padding stripped. */
  function Encode(bytes: Bytes): Utf16 { Letters(Split(bytes)) }

  /** The alphabet test, then atob of the padded text, which refuses a lone last letter. */
  function Decode(s: Utf16): Option<Bytes> {
    if AllLetters(s) && |s| % 4 != 1 then Some(Join(Groups(s))) else None
  }

  /** The number of letters of `n` bytes. */
  function EncodedLength(n: nat): nat { (n * 4 + 2) / 3 }

  lemma {:induction false} EncodeLength(bytes: Bytes)
    ensures |Encode(bytes)| == EncodedLength(|bytes|) && |Split(bytes)| % 4 != 1
  {
    if |bytes| >= 3 {
      EncodeLength(bytes[3..]);
    }
  }

  lemma JoinInvertsSplit3(a: Byte, b: Byte, c: Byte)
    ensures var g := Split3(a, b, c); Join4(g[0], g[1], g[2], g[3]) == [a, b, c]
  {
  }

  lemma SplitInvertsJoin4(p: Sextet, q: Sextet, r: Sextet, s: Sextet)
    ensures var d := Join4(p, q, r, s); Split3(d[0], d[1], d[2]) == [p, q, r, s]
  {
    var a, b, c := p * 4 + q / 16, q % 16 * 16 + r / 4, r % 4 * 64 + s;
    assert a / 4 == p && a % 4 == q / 16;
    assert b / 16 == q % 16 && b % 16 == r / 4;
    assert c / 64 == r % 4 && c % 64 == s;
  }

  lemma {:induction false} JoinInvertsSplit(bytes: Bytes)
    ensures |Split(bytes)| % 4 != 1 && Join(Split(bytes)) == bytes
  {
    EncodeLength(bytes);
    if |bytes| >= 3 {
      var g := Split3(bytes[0], bytes[1], bytes[2]);
      JoinInvertsSplit(bytes[3..]);
      JoinInvertsSplit3(bytes[0], bytes[1], bytes[2]);
      assert Split(bytes)[4..] == Split(bytes[3..]);
      assert bytes == [bytes[0], bytes[1], bytes[2]] + bytes[3..];
    }
  }

  /** The bits the last group carries beyond the last byte are zero. */
  predicate NoUnusedBits(g: seq<Sextet>) {
    && (|g| % 4 == 2 ==> g[|g| - 1] % 16 == 0)
    && (|g| % 4 == 3 ==> g[|g| - 1] % 4 == 0)
  }

  lemma SplitOfThreeMore(d: Bytes, rest: Bytes)
    requires |d| == 3
    ensures Split(d + rest) == Split3(d[0], d[1], d[2]) + Split(rest)
  {
    assert (d + rest)[3..] == rest;
  }

  lemma SameHead(head: seq<Sextet>, a: seq<Sextet>, b: seq<Sextet>)
    ensures head + a == head + b <==> a == b
  {
    assert (head + a)[|head|..] == a && (head + b)[|head|..] == b;
  }

  lemma FirstThreeBytes(g: seq<Sextet>) returns (d: Bytes)
    requires |g| >= 4 && |g| % 4 != 1
    ensures |d| == 3 && Join(g) == d + Join(g[4..]) && Split3(d[0], d[1], d[2]) == g[..4]
  {
    d := Join4(g[0], g[1], g[2], g[3]);
    SplitInvertsJoin4(g[0], g[1], g[2], g[3]);
    assert g[..4] == [g[0], g[1], g[2], g[3]];
  }

  lemma SplitsLonger(g: seq<Sextet>, all: Bytes, d: Bytes, rest: Bytes)
    requires |g| >= 4 && |d| == 3 && all == d + rest && Split3(d[0], d[1], d[2]) == g[..4]
    ensures Split(all) == g <==> Split(rest) == g[4..]
  {
    SplitOfThreeMore(d, rest);
    SameHead(g[..4], Split(rest), g[4..]);
    assert g == g[..4] + g[4..];
  }

  /** What one byte, or two, keep of two groups, or three. */
  lemma Rounding(p: Sextet, q: Sextet, r: Sextet)
    ensures var d := Join2(p, q); d[0] / 4 == p && d[0] % 4 * 16 == q / 16 * 16
    ensures var d := Join3(p, q, r); d[0] / 4 == p && d[0] % 4 * 16 + d[1] / 16 == q && d[1] % 16 * 4 == r / 4 * 4
  {
  }

  lemma SplitOfTwoGroups(g: seq<Sextet>, d: Bytes)
    requires |g| == 2 && |d| == 1 && d[0] / 4 == g[0] && d[0] % 4 * 16 == g[1] / 16 * 16
    ensures Split(d) == g <==> g[1] % 16 == 0
  {
    assert g == [g[0], g[1]];
  }

  lemma SplitOfThreeGroups(g: seq<Sextet>, d: Bytes)
    requires |g| == 3 && |d| == 2
    requires d[0] / 4 == g[0] && d[0] % 4 * 16 + d[1] / 16 == g[1] && d[1] % 16 * 4 == g[2] / 4 * 4
    ensures Split(d) == g <==> g[2] % 4 == 0
  {
    assert g == [g[0], g[1], g[2]];
  }

  lemma LastGroups(g: seq<Sextet>)
    requires |g| == 2 || |g| == 3
    ensures Split(Join(g)) == g <==> NoUnusedBits(g)
  {
    Rounding(g[0], g[1], g[|g| - 1]);
    if |g| == 2 {
      SplitOfTwoGroups(g, Join2(g[0], g[1]));
    } else {
      SplitOfThreeGroups(g, Join3(g[0], g[1], g[2]));
    }
  }

  lemma UnusedBitsLonger(g: seq<Sextet>)
    requires |g| >= 4
    ensures NoUnusedBits(g) <==> NoUnusedBits(g[4..])
  {
    assert |g| > 4 ==> g[|g| - 1] == g[4..][|g[4..]| - 1];
  }

  lemma {:induction false} SplitInvertsJoinIff(g: seq<Sextet>)
    requires |g| % 4 != 1
    ensures Split(Join(g)) == g <==> NoUnusedBits(g)
  {
    if |g| >= 4 {
      var d := FirstThreeBytes(g);
      UnusedBitsLonger(g);
      SplitInvertsJoinIff(g[4..]);
      SplitsLonger(g, Join(g), d, Join(g[4..]));
    } else if g != [] {
      LastGroups(g);
    }
  }

  /** Decoding inverts encoding. */
  lemma DecodeInvertsEncode(bytes: Bytes)
    ensures Decode(Encode(bytes)) == Some(bytes)
  {
    LettersAndGroups(Split(bytes), []);
    JoinInvertsSplit(bytes);
  }

  /** Encoding a decoded text gives the text back exactly when its unused bits are zero. */
  lemma ReencodesIffNoUnusedBits(s: Utf16)
    requires Decode(s).Some?
    ensures Encode(Decode(s).value) == s <==> NoUnusedBits(Groups(s))
  {
    var g := Groups(s);
    LettersAndGroups(g, s);
    LettersAndGroups(Split(Join(g)), s);
    SplitInvertsJoinIff(g);
  }

  /** The re-encode check admits one spelling of each byte string. */
  lemma CanonicalSpellingIsUnique(s: Utf16, bytes: Bytes)
    ensures (Decode(s).Some? && Encode(Decode(s).value) == s && Decode(s).value == bytes) <==> s == Encode(bytes)
  {
    DecodeInvertsEncode(bytes);
  }

  /** Without it there are several: a letter whose group is not round decodes like the one rounded down. */
  lemma UnusedBitsGiveOtherSpellings(p: Sextet, q: Sextet)
    ensures Decode(Letters([p, q])) == Decode(Letters([p, q / 16 * 16]))
  {
    LettersAndGroups([p, q], []);
    LettersAndGroups([p, q / 16 * 16], []);
    assert Join([p, q]) == Join2(p, q) == Join2(p, q / 16 * 16) == Join([p, q / 16 * 16]);
  }

  // ---------------------------------------------------------------------------------------------
  // The two functions as they are written, over btoa and atob
  // ---------------------------------------------------------------------------------------------

  const PAD: Unit := 0x3D

  /** The letter of the standard alphabet: `+` and `/` for the last two groups. */
  function StandardLetter(v: Sextet): Unit { if v == 62 then 0x2B else if v == 63 then 0x2F else Letter(v) }

  function StandardGroup(u: Unit): Option<Sextet> {
    if u == 0x2B then Some(62) else if u == 0x2F then Some(63) else if u == 0x2D || u == 0x5F then None else GroupOf(u)
  }

  function Standard(g: seq<Sextet>): Utf16 { seq(|g|, i requires 0 <= i < |g| => StandardLetter(g[i])) }

  predicate AllStandard(s: Utf16) { forall i :: 0 <= i < |s| ==> StandardGroup(s[i]).Some? }

  function StandardGroups(s: Utf16): seq<Sextet>
    requires AllStandard(s)
  {
    seq(|s|, i requires 0 <= i < |s| => StandardGroup(s[i]).value)
  }

  lemma StandardIsReadBack(g: seq<Sextet>)
    ensures AllStandard(Standard(g)) && StandardGroups(Standard(g)) == g
    ensures forall u :: u in Standard(g) ==> u != PAD
    ensures forall u :: u in Letters(g) ==> u != PAD
  {
  }

  function Pads(k: nat): Utf16 { seq(k, _ => PAD) }

  /** How many padding signs complete `n` letters to a multiple of four. */
  function Missing(n: nat): nat { if n % 4 == 0 then 0 else 4 - n % 4 }

  function Btoa(bin: Bytes): Utf16 { Standard(Split(bin)) + Pads(Missing(|Split(bin)|)) }

  function DropPad(s: Utf16): Utf16 { if s != [] && s[|s| - 1] == PAD then s[..|s| - 1] else s }

  /** Forgiving decoding: up to two padding signs go from the end of a text whose length four divides. */
  function Atob(s: Utf16): Option<Bytes> { AtobUnpadded(if |s| % 4 == 0 then DropPad(DropPad(s)) else s) }

  function AtobUnpadded(t: Utf16): Option<Bytes> {
    if |t| % 4 != 1 && AllStandard(t) then Some(Join(StandardGroups(t))) else None
  }

  function Map(f: Unit -> Unit, s: Utf16): Utf16 { seq(|s|, i requires 0 <= i < |s| => f(s[i])) }

  function ToUrl(u: Unit): Unit { if u == 0x2B then 0x2D else if u == 0x2F then 0x5F else u }

  function ToStandard(u: Unit): Unit { if u == 0x2D then 0x2B else if u == 0x5F then 0x2F else u }

  /** Every padding sign at the end goes. */
  function TrimPads(s: Utf16): Utf16 { if s != [] && s[|s| - 1] == PAD then TrimPads(s[..|s| - 1]) else s }

  lemma DropOnePad(s: Utf16, k: nat)
    ensures DropPad(s + Pads(k + 1)) == s + Pads(k) && TrimPads(s + Pads(k + 1)) == TrimPads(s + Pads(k))
  {
    var t := s + Pads(k + 1);
    assert t[|t| - 1] == PAD && t[..|t| - 1] == s + Pads(k);
  }

  lemma {:induction false} TrimsPads(s: Utf16, k: nat)
    requires PAD !in s
    ensures TrimPads(s + Pads(k)) == s
  {
    if k == 0 {
      assert s + Pads(0) == s;
    } else {
      DropOnePad(s, k - 1);
      TrimsPads(s, k - 1);
    }
  }

  lemma DropsTwoPads(s: Utf16, k: nat)
    requires PAD !in s && k <= 3
    ensures DropPad(DropPad(s + Pads(k))) == s + Pads(if k == 3 then 1 else 0)
  {
    assert s + Pads(0) == s;
    DropOnePad(s, if k > 0 then k - 1 else 0);
    DropOnePad(s, if k > 1 then k - 2 else 0);
  }

  lemma ToUrlOfStandard(g: seq<Sextet>, k: nat)
    ensures Map(ToUrl, Standard(g) + Pads(k)) == Letters(g) + Pads(k)
  {
    var t := Standard(g) + Pads(k);
    forall i | 0 <= i < |t| ensures ToUrl(t[i]) == (Letters(g) + Pads(k))[i] {
      assert i < |g| ==> ToUrl(StandardLetter(g[i])) == Letter(g[i]);
    }
  }

  /** The loop that makes the binary string, btoa, and the three replacements. */
  method Base64urlEncode(bytes: Bytes) returns (s: Utf16)
    ensures s == Encode(bytes)
  {
    var bin: Bytes := [];
    for i := 0 to |bytes|
      invariant bin == bytes[..i]
    {
      bin := bin + [bytes[i]];
    }
    assert bin == bytes;
    var k := Missing(|Split(bytes)|);
    ToUrlOfStandard(Split(bytes), k);
    StandardIsReadBack(Split(bytes));
    TrimsPads(Letters(Split(bytes)), k);
    s := TrimPads(Map(ToUrl, Btoa(bin)));
  }

  lemma ToStandardOfLetters(s: Utf16)
    requires AllLetters(s)
    ensures Map(ToStandard, s) == Standard(Groups(s))
  {
    forall i | 0 <= i < |s| ensures ToStandard(s[i]) == StandardLetter(GroupOf(s[i]).value) {
    }
  }

  lemma AtobOfPadded(s: Utf16)
    requires AllLetters(s)
    ensures Atob(Map(ToStandard, s) + Pads(Missing(|s|))) == Decode(s)
  {
    var m, k := Standard(Groups(s)), Missing(|s|);
    ToStandardOfLetters(s);
    StandardIsReadBack(Groups(s));
    DropsTwoPads(m, k);
    assert |m + Pads(k)| % 4 == 0;
    if |s| % 4 == 1 {
      assert StandardGroup((m + Pads(1))[|m|]).None?;
    } else {
      assert m + Pads(0) == m;
    }
  }

  /** The alphabet test, atob of the padded text, and the loop that fills the output. */
  method Base64urlDecode(s: Utf16) returns (out: Option<array<Byte>>)
    ensures out.Some? <==> Decode(s).Some?
    ensures out.Some? ==> fresh(out.value) && out.value[..] == Decode(s).value
  {
    if !AllLetters(s) {
      return None;
    }
    AtobOfPadded(s);
    var bin := Atob(Map(ToStandard, s) + Pads(Missing(|s|)));
    if bin.None? {
      return None;
    }
    var a := CopyOut(bin.value);
    return Some(a);
  }

  method CopyOut(bin: Bytes) returns (a: array<Byte>)
    ensures fresh(a) && a[..] == bin
  {
    a := new Byte[|bin|];
    for i := 0 to a.Length
      invariant a[..i] == bin[..i]
    {
      a[i] := bin[i];
    }
  }
}
