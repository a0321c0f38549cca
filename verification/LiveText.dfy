/**
 * Bounding the live preview text: a binary search over the JSON/UTF-8 size of prefixes
 * (packages/cli/src/broker/live-output.ts).
 */
module LiveText {

  import opened Text

  const PLAINTEXT_LIMIT := 16 * 1024
  const BUDGET := PLAINTEXT_LIMIT - 1024

  /** Bytes of one unit outside a pair, as JSON.stringify escapes it and UTF-8 encodes it. */
  function UnitSize(u: Unit): nat {
    if u == 0x22 || u == 0x5C then 2                      // \" and \\
    else if u in {0x08, 0x09, 0x0A, 0x0C, 0x0D} then 2    // \b \t \n \f \r
    else if u < 0x20 then 6                               // \u00XX
    else if u < 0x80 then 1
    else if u < 0x800 then 2
    else if High(u) || Low(u) then 6                      // a lone surrogate is escaped
    else 3
  }

  function BodySize(text: seq<Unit>): nat {
    if text == [] then 0
    else if |text| > 1 && High(text[0]) && Low(text[1]) then 4 + BodySize(text[2..])
    else UnitSize(text[0]) + BodySize(text[1..])
  }

  /** The length of encode(JSON.stringify(text)): the body and two quotes. */
  function JsonSize(text: seq<Unit>): nat { BodySize(text) + 2 }

  predicate Fits(text: seq<Unit>, n: nat)
    requires n <= |text|
  {
    JsonSize(text[..n]) <= BUDGET
  }

  /** Cutting at `n` separates no pair. */
  predicate Boundary(text: seq<Unit>, n: nat)
    requires n <= |text|
  {
    !(0 < n < |text| && High(text[n - 1]) && Low(text[n]))
  }

  lemma {:induction false} SizeAppend(a: seq<Unit>, b: seq<Unit>)
    requires Boundary(a + b, |a|)
    ensures BodySize(a + b) == BodySize(a) + BodySize(b)
  {
    var t := a + b;
    if a == [] {
      assert t == b;
    } else if |a| > 1 && High(a[0]) && Low(a[1]) {
      assert t[2..] == a[2..] + b;
      SizeAppend(a[2..], b);
    } else {
      assert t[1..] == a[1..] + b;
      SizeAppend(a[1..], b);
    }
  }

  lemma {:induction false} SizeAtLeastLength(text: seq<Unit>)
    ensures |text| <= BodySize(text)
  {
    if text != [] {
      SizeAtLeastLength(if |text| > 1 && High(text[0]) && Low(text[1]) then text[2..] else text[1..]);
    }
  }

  /** What one more unit adds, when the shorter prefix ends at a boundary. */
  lemma SizeOfNextUnit(text: seq<Unit>, n: nat)
    requires n < |text| && Boundary(text, n)
    ensures BodySize(text[..n + 1]) == BodySize(text[..n]) + UnitSize(text[n])
  {
    assert text[..n + 1] == text[..n] + [text[n]];
    SizeAppend(text[..n], [text[n]]);
    assert [text[n]][1..] == [];
  }

  lemma SizeOfNextPair(text: seq<Unit>, n: nat)
    requires n + 1 < |text| && Boundary(text, n) && High(text[n]) && Low(text[n + 1])
    ensures BodySize(text[..n + 2]) == BodySize(text[..n]) + 4
  {
    var pair := [text[n], text[n + 1]];
    assert text[..n + 2] == text[..n] + pair;
    SizeAppend(text[..n], pair);
    assert pair[2..] == [];
  }

  lemma SizeGrowsOverBoundaries(text: seq<Unit>, m: nat, n: nat)
    requires m <= n <= |text| && Boundary(text, m)
    ensures BodySize(text[..m]) <= BodySize(text[..n])
  {
    assert text[..n] == text[..m] + text[m..n];
    SizeAppend(text[..m], text[m..n]);
  }

  // ---------------------------------------------------------------------------------------------
  // The search
  // ---------------------------------------------------------------------------------------------

  /**
   * The binary search of `boundLiveText`. The predicate it bisects is not monotone, so what it finds
   * is a prefix that fits and whose one-unit extension does not, unless it is the longest candidate.
   */
  method Search(text: seq<Unit>) returns (low: nat)
    requires JsonSize(text) > BUDGET
    ensures low < |text| && low < BUDGET
    ensures Fits(text, low) && !Fits(text, low + 1)
  {
    low := 0;
    var high := if |text| < BUDGET then |text| else BUDGET;
    LongPrefixIsTooBig(text, high);
    while low < high
      invariant 0 <= low <= high <= |text| && high <= BUDGET
      invariant Fits(text, low)
      invariant high < |text| && high < BUDGET ==> !Fits(text, high + 1)
      invariant !(high < |text| && high < BUDGET) ==> !Fits(text, high)
      decreases high - low
    {
      var mid := (low + high + 1) / 2;
      if JsonSize(text[..mid]) <= BUDGET {
        low := mid;
      } else {
        high := mid - 1;
      }
    }
  }

  lemma LongPrefixIsTooBig(text: seq<Unit>, n: nat)
    requires JsonSize(text) > BUDGET && n == if |text| < BUDGET then |text| else BUDGET
    ensures !Fits(text, n)
  {
    SizeAtLeastLength(text[..n]);
    assert text[..|text|] == text;
  }

  /** In well-formed text a prefix that fits and does not with one more unit never ends inside a pair. */
  lemma SearchEndsAtBoundary(text: seq<Unit>, low: nat)
    requires WellFormed(text) && low < |text| && Fits(text, low) && !Fits(text, low + 1)
    ensures low > 0 ==> !High(text[low - 1])
  {
    if low > 0 && High(text[low - 1]) {
      assert Low(text[low]);
      assert Boundary(text, low - 1);
      SizeOfNextUnit(text, low - 1);
      SizeOfNextPair(text, low - 1);
      assert false;
    }
  }

  /** How many units the next scalar of well-formed text takes. */
  function NextScalar(text: seq<Unit>, n: nat): nat
    requires n < |text|
  {
    if High(text[n]) then 2 else 1
  }

  /** `n` is the longest cut between scalars that fits. */
  ghost predicate Longest(text: seq<Unit>, n: nat)
    requires n <= |text|
  {
    Fits(text, n) && forall m :: n < m <= |text| && Boundary(text, m) ==> !Fits(text, m)
  }

  /**
   * The bounded text is a prefix within the budget, the whole text exactly when that fits; cutting
   * well-formed text leaves well-formed text, without the final correction ever firing, and one more
   * scalar would exceed the budget less two bytes.
   */
  method BoundLiveText(text: seq<Unit>) returns (bounded: seq<Unit>, truncated: bool, ghost corrected: bool)
    ensures bounded <= text
    ensures JsonSize(bounded) <= BUDGET
    ensures truncated <==> JsonSize(text) > BUDGET
    ensures !truncated ==> bounded == text
    ensures truncated ==> |bounded| < |text|
    ensures WellFormed(text) ==> !corrected && WellFormed(bounded)
    ensures truncated && WellFormed(text) ==>
      && |bounded| + NextScalar(text, |bounded|) <= |text|
      && JsonSize(text[..|bounded| + NextScalar(text, |bounded|)]) > BUDGET - 2
      && !Fits(text, |bounded| + 1)
  {
    corrected := false;
    if JsonSize(text) <= BUDGET {
      return text, false, false;
    }
    var low := Search(text);
    if WellFormed(text) {
      SearchEndsAtBoundary(text, low);
      CutIsWellFormed(text, low);
      NextScalarIsTooBig(text, low);
    }
    if low > 0 && High(text[low - 1]) {
      SizeGrowsOverBoundaries(text, low - 1, low) by {
        assert Boundary(text, low - 1) by { HighIsNotLow(text, low); }
      }
      low := low - 1;
      corrected := true;
    }
    return text[..low], true, corrected;
  }

  lemma HighIsNotLow(text: seq<Unit>, low: nat)
    requires 0 < low <= |text| && High(text[low - 1])
    ensures Boundary(text, low - 1)
  {
  }

  lemma CutIsWellFormed(text: seq<Unit>, n: nat)
    requires WellFormed(text) && n <= |text| && (n > 0 ==> !High(text[n - 1]))
    ensures WellFormed(text[..n])
  {
    forall i | 0 <= i < n && High(text[i]) ensures i + 1 < n {
      assert i != n - 1;
    }
  }

  lemma NextScalarIsTooBig(text: seq<Unit>, n: nat)
    requires WellFormed(text) && n < |text| && !Fits(text, n + 1) && (n > 0 ==> !High(text[n - 1]))
    ensures n + NextScalar(text, n) <= |text|
    ensures JsonSize(text[..n + NextScalar(text, n)]) > BUDGET - 2
  {
    if High(text[n]) {
      SizeOfNextUnit(text, n);
      SizeOfNextPair(text, n);
    }
  }

  /**
   * The search is not exact: it keeps the longest fitting cut if and only if the scalar after it is
   * not a pair that would still have fitted (a lone half costs two bytes more than the pair).
   */
  lemma LongestIffNoFittingPair(text: seq<Unit>, n: nat)
    requires WellFormed(text) && n < |text| && Fits(text, n) && !Fits(text, n + 1)
    ensures Longest(text, n) <==> !(High(text[n]) && JsonSize(text[..n]) + 4 <= BUDGET)
  {
    SearchEndsAtBoundary(text, n);
    var next := n + NextScalar(text, n);
    if High(text[n]) {
      SizeOfNextPair(text, n);
    }
    assert Boundary(text, next);
    forall m | n < m <= |text| && Boundary(text, m) ensures next <= m && (Fits(text, m) ==> Fits(text, next)) {
      assert m >= next;
      SizeGrowsOverBoundaries(text, next, m);
    }
  }

  function Letters(k: nat): seq<Unit> { seq(k, _ => 0x61) }

  lemma {:induction false} LettersSize(k: nat)
    ensures BodySize(Letters(k)) == k
  {
    if k > 0 {
      assert Letters(k)[1..] == Letters(k - 1);
      LettersSize(k - 1);
    }
  }

  /** Prefix size is not monotone: the lone high half of a pair is over the budget, the whole pair within. */
  lemma FittingIsNotMonotone()
    ensures var text := Letters(BUDGET - 7) + [0xD83D, 0xDE00];
            WellFormed(text) && Fits(text, |text| - 2) && !Fits(text, |text| - 1) && Fits(text, |text|)
  {
    var text := Letters(BUDGET - 7) + [0xD83D, 0xDE00];
    var n := BUDGET - 7;
    LettersSize(n);
    assert text[..n] == Letters(n) && text[..|text|] == text;
    SizeOfNextUnit(text, n);
    SizeOfNextPair(text, n);
    assert text[..n + 2] == text;
  }
}
