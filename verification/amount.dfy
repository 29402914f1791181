/** `extract_amount` (SBAK.py:23-25): the amount of the first rupee figure in a
    message, found with `re.search(r'₹\s?([\d,]+\.?\d*)', msg)`, with its commas
    removed and read by `float`; 0 when nothing matches. Amounts are exact reals. */
module Amount {
  import opened Text
  import opened Outcome

  /** U+20B9 INDIAN RUPEE SIGN, the first character of the pattern. */
  const Rupee: char := '\U{20B9}'

  /** `[\d,]`. */
  predicate IsNumeralChar(c: char) { IsDigit(c) || c == ',' }

  /** The two character classes the pattern repeats: `[\d,]` and `\d`. */
  datatype CharClass = NumeralChars | Digits

  predicate InClass(c: char, cls: CharClass) {
    match cls
    case NumeralChars => IsNumeralChar(c)
    case Digits => IsDigit(c)
  }

  predicate AllIn(t: string, cls: CharClass) { forall k :: 0 <= k < |t| ==> InClass(t[k], cls) }

  predicate AllDigits(t: string) { AllIn(t, Digits) }

  predicate HasDigit(t: string) { t != [] && (IsDigit(t[0]) || HasDigit(t[1..])) }

  /** The end of the longest run of `cls` characters that starts at `j`: the greedy
      repetition of that class. */
  function RunEnd(s: string, j: nat, cls: CharClass): (e: nat)
    requires j <= |s|
    ensures j <= e <= |s|
    ensures e == |s| || !InClass(s[e], cls)
    decreases |s| - j
  {
    if j < |s| && InClass(s[j], cls) then RunEnd(s, j + 1, cls) else j
  }

  /** Every character the run takes is of its class. */
  lemma {:induction false} RunEndAllIn(s: string, j: nat, cls: CharClass)
    requires j <= |s|
    ensures AllIn(s[j..RunEnd(s, j, cls)], cls)
    decreases |s| - j
  {
    if j < |s| && InClass(s[j], cls) {
      RunEndAllIn(s, j + 1, cls);
      var e := RunEnd(s, j, cls);
      assert s[j..e] == [s[j]] + s[j + 1..e];
    }
  }

  /** The pattern has a match starting at `i`: a rupee sign, then either a `[\d,]`
      character, or one whitespace character and a `[\d,]` character. The rest of
      the pattern, `[\d,]*\.?\d*`, can always match the empty string. */
  predicate MatchesAt(s: string, i: int) {
    0 <= i < |s| && s[i] == Rupee &&
    (|| (i + 1 < |s| && IsNumeralChar(s[i + 1]))
     || (i + 2 < |s| && IsSpace(s[i + 1]) && IsNumeralChar(s[i + 2])))
  }

  /** `re.search` reports the match that starts leftmost. */
  ghost predicate IsLeftmostMatch(s: string, i: int) {
    MatchesAt(s, i) && forall k :: 0 <= k < i ==> !MatchesAt(s, k)
  }

  /** The scan of `re.search`: the first position at or after `from` where a match starts. */
  function FindMatch(s: string, from: nat): (r: Option<nat>)
    requires from <= |s|
    ensures r.Some? ==> from <= r.value && MatchesAt(s, r.value)
    ensures r.Some? ==> forall k :: from <= k < r.value ==> !MatchesAt(s, k)
    ensures r.None? ==> forall k :: from <= k ==> !MatchesAt(s, k)
    decreases |s| - from
  {
    if from == |s| then None
    else if MatchesAt(s, from) then Some(from)
    else FindMatch(s, from + 1)
  }

  /** Group 1 of a match, `[\d,]+\.?\d*`: it spans `start..end`; `start..wholeEnd`
      is the part before the decimal point. */
  datatype Numeral = Numeral(start: nat, wholeEnd: nat, end: nat) {
    predicate HasPoint() { wholeEnd < end }
  }

  /** The greedy span of group 1 of the match at `i`. `\s?` takes the whitespace
      character after the sign when there is one; then `[\d,]+` takes every digit
      and comma; `\.?` takes a point if one follows; `\d*` takes every digit after it. */
  function NumeralAt(s: string, i: nat): (n: Numeral)
    requires MatchesAt(s, i)
    ensures n.start == (if IsSpace(s[i + 1]) then i + 2 else i + 1)
    ensures n.start < n.wholeEnd <= n.end <= |s|
    ensures n.HasPoint() <==> n.wholeEnd < |s| && s[n.wholeEnd] == '.'
  {
    var j := if IsSpace(s[i + 1]) then i + 2 else i + 1;
    var w := RunEnd(s, j, NumeralChars);
    var e := if w < |s| && s[w] == '.' then RunEnd(s, w + 1, Digits) else w;
    Numeral(j, w, e)
  }

  /** The span `NumeralAt` reports is the greedy one: each part ends where its run of
      `[\d,]` or `\d` characters stops. */
  lemma NumeralRuns(s: string, i: nat)
    requires MatchesAt(s, i)
    ensures var n := NumeralAt(s, i);
      && n.wholeEnd == RunEnd(s, n.start, NumeralChars)
      && (n.HasPoint() ==> n.end == RunEnd(s, n.wholeEnd + 1, Digits))
  {
  }

  /** `match.group(1)`. */
  function MatchedText(s: string, i: nat): string
    requires MatchesAt(s, i)
  {
    var n := NumeralAt(s, i);
    s[n.start..n.end]
  }

  /** The digits and commas of group 1 before the point, `[\d,]+`. */
  function WholeText(s: string, i: nat): (w: string)
    requires MatchesAt(s, i)
    ensures w != [] && AllIn(w, NumeralChars)
  {
    NumeralRuns(s, i);
    var n := NumeralAt(s, i);
    RunEndAllIn(s, n.start, NumeralChars);
    s[n.start..n.wholeEnd]
  }

  /** The digits of group 1 after the point, `\d*`; empty when there is no point. */
  function FracText(s: string, i: nat): (f: string)
    requires MatchesAt(s, i)
    ensures AllDigits(f)
  {
    NumeralRuns(s, i);
    var n := NumeralAt(s, i);
    if n.HasPoint() then RunEndAllIn(s, n.wholeEnd + 1, Digits); s[n.wholeEnd + 1..n.end] else []
  }

  /** `str.replace(',', '')`. */
  function StripCommas(t: string): (r: string)
    ensures forall k :: 0 <= k < |r| ==> r[k] != ','
    ensures AllIn(t, NumeralChars) ==> AllDigits(r)
  {
    if t == [] then []
    else
      var r := (if t[0] == ',' then [] else [t[0]]) + StripCommas(t[1..]);
      assert AllIn(t, NumeralChars) ==> AllIn(t[1..], NumeralChars) by {
        assert forall k :: 0 <= k < |t| - 1 ==> t[1..][k] == t[k + 1];
      }
      r
  }

  lemma {:induction false} StripCommasAppend(a: string, b: string)
    ensures StripCommas(a + b) == StripCommas(a) + StripCommas(b)
    decreases |a|
  {
    if a == [] {
      assert a + b == b;
    } else {
      assert (a + b)[0] == a[0] && (a + b)[1..] == a[1..] + b;
      StripCommasAppend(a[1..], b);
      var head := if a[0] == ',' then [] else [a[0]];
      assert StripCommas(a + b) == head + (StripCommas(a[1..]) + StripCommas(b));
    }
  }

  lemma {:induction false} StripCommasWithoutCommas(t: string)
    requires forall k :: 0 <= k < |t| ==> t[k] != ','
    ensures StripCommas(t) == t
  {
    if t != [] { StripCommasWithoutCommas(t[1..]); }
  }

  /** A digit at any position makes `HasDigit` hold. */
  lemma {:induction false} HasDigitAt(t: string, k: nat)
    requires k < |t| && IsDigit(t[k])
    ensures HasDigit(t)
  {
    if k > 0 { HasDigitAt(t[1..], k - 1); }
  }

  lemma {:induction false} HasDigitAppend(a: string, b: string)
    ensures HasDigit(a + b) <==> HasDigit(a) || HasDigit(b)
    decreases |a|
  {
    if a == [] {
      assert a + b == b;
    } else {
      assert (a + b)[0] == a[0] && (a + b)[1..] == a[1..] + b;
      HasDigitAppend(a[1..], b);
    }
  }

  /** Removing commas keeps every digit. */
  lemma {:induction false} StripCommasKeepsDigits(t: string)
    ensures HasDigit(StripCommas(t)) <==> HasDigit(t)
  {
    if t != [] {
      StripCommasKeepsDigits(t[1..]);
      var head := if t[0] == ',' then [] else [t[0]];
      HasDigitAppend(head, StripCommas(t[1..]));
    }
  }

  function Pow10(n: nat): (p: nat)
    ensures p >= 1
  {
    if n == 0 then 1 else 10 * Pow10(n - 1)
  }

  function DigitValue(c: char): nat
    requires IsDigit(c)
  {
    c as int - '0' as int
  }

  /** The value of a string of decimal digits; it is below `Pow10(|t|)`. */
  function DigitsValue(t: string): (v: nat)
    requires AllDigits(t)
    ensures v < Pow10(|t|)
  {
    if t == [] then 0
    else
      assert InClass(t[|t| - 1], Digits);
      assert AllDigits(t[..|t| - 1]) by {
        assert forall k :: 0 <= k < |t| - 1 ==> t[..|t| - 1][k] == t[k];
      }
      10 * DigitsValue(t[..|t| - 1]) + DigitValue(t[|t| - 1])
  }

  /** The number written `whole.frac`. */
  function DecimalValue(whole: string, frac: string): real
    requires AllDigits(whole) && AllDigits(frac)
  {
    DigitsValue(whole) as real + DigitsValue(frac) as real / Pow10(|frac|) as real
  }

  lemma FractionBelowOne(f: nat, p: nat)
    requires f < p
    ensures 0.0 <= f as real / p as real < 1.0
  {
    var q := f as real / p as real;
    assert q * p as real == f as real;
  }

  /** The digits after the point never carry into the integer part. */
  lemma DecimalValueBounds(whole: string, frac: string)
    requires AllDigits(whole) && AllDigits(frac)
    ensures DigitsValue(whole) as real <= DecimalValue(whole, frac) < DigitsValue(whole) as real + 1.0
  {
    FractionBelowOne(DigitsValue(frac), Pow10(|frac|));
  }

  /** Digits with at most one '.': every string the extractor hands to `float`. */
  predicate IsDecimalText(t: string) {
    && (forall k :: 0 <= k < |t| ==> IsDigit(t[k]) || t[k] == '.')
    && (forall k, l :: 0 <= k < l < |t| && t[k] == '.' ==> t[l] != '.')
  }

  /** The position of the first '.', or `|t|` when there is none. */
  function DotIndex(t: string): (d: nat)
    ensures d <= |t|
    ensures d < |t| ==> t[d] == '.'
    ensures forall k :: 0 <= k < d ==> t[k] != '.'
  {
    if t == [] then 0 else if t[0] == '.' then 0 else 1 + DotIndex(t[1..])
  }

  /** Python's `float(t)` on digit strings with at most one point: it raises
      `ValueError` exactly when `t` holds no digit ("" or "."), and otherwise reads
      the digits before and after the point. */
  function ParseFloat(t: string): (r: Result<real>)
    requires IsDecimalText(t)
    ensures r.Err? <==> !HasDigit(t)
    ensures r.Ok? ==> r.value >= 0.0
  {
    var d := DotIndex(t);
    var whole := t[..d];
    var frac := if d < |t| then t[d + 1..] else [];
    assert AllDigits(whole) && AllDigits(frac) by {
      assert forall k :: 0 <= k < |whole| ==> whole[k] == t[k];
      assert forall k :: 0 <= k < |frac| ==> frac[k] == t[d + 1 + k];
    }
    if whole == [] && frac == [] then
      assert t == [] || t == ['.'];
      Err(NotANumber(t))
    else
      assert HasDigit(t) by {
        if whole != [] { HasDigitAt(t, 0); } else { HasDigitAt(t, d + 1); }
      }
      DecimalValueBounds(whole, frac);
      Ok(DecimalValue(whole, frac))
  }

  lemma {:induction false} DotIndexAppend(a: string, b: string)
    requires forall k :: 0 <= k < |a| ==> a[k] != '.'
    ensures DotIndex(a + b) == |a| + DotIndex(b)
    decreases |a|
  {
    if a == [] {
      assert a + b == b;
    } else {
      assert (a + b)[0] == a[0] && (a + b)[1..] == a[1..] + b;
      DotIndexAppend(a[1..], b);
    }
  }

  /** Digits alone form decimal text without a point. */
  lemma DecimalTextOfDigits(w: string)
    requires AllDigits(w)
    ensures IsDecimalText(w) && DotIndex(w) == |w|
  {
    assert forall k :: 0 <= k < |w| ==> InClass(w[k], Digits);
    DotIndexAppend(w, []);
    assert w + [] == w;
  }

  /** Digits, a point and digits form decimal text whose only point sits right
      after the whole digits. */
  lemma DecimalTextWithPoint(w: string, f: string)
    requires AllDigits(w) && AllDigits(f)
    ensures var t := w + "." + f;
      && IsDecimalText(t)
      && DotIndex(t) == |w| && t[..|w|] == w && t[|w| + 1..] == f
  {
    var t := w + "." + f;
    assert t == w + ("." + f);
    assert forall k :: 0 <= k < |w| ==> InClass(w[k], Digits);
    DotIndexAppend(w, "." + f);
    forall k | 0 <= k < |t| && k != |w| ensures IsDigit(t[k]) {
      if k < |w| {
        assert t[k] == w[k] && InClass(w[k], Digits);
      } else {
        assert t[k] == f[k - |w| - 1] && InClass(f[k - |w| - 1], Digits);
      }
    }
    assert t[..|w|] == w && t[|w| + 1..] == f;
  }

  /** Whole digits, optionally followed by a point and fraction digits, form decimal
      text whose first point sits right after the whole digits. */
  lemma DecimalTextOfParts(w: string, f: string, dot: bool)
    requires AllDigits(w) && AllDigits(f) && (!dot ==> f == [])
    ensures var t := if dot then w + "." + f else w;
      && IsDecimalText(t)
      && DotIndex(t) == |w| && t[..|w|] == w
      && (|w| < |t| ==> t[|w| + 1..] == f)
  {
    if dot {
      DecimalTextWithPoint(w, f);
    } else {
      DecimalTextOfDigits(w);
    }
  }

  lemma DigitsOfParts(w: string, f: string, dot: bool)
    requires !dot ==> f == []
    ensures HasDigit(if dot then w + "." + f else w) <==> HasDigit(w) || HasDigit(f)
  {
    if dot {
      assert w + "." + f == w + ("." + f);
      HasDigitAppend(w, "." + f);
      assert ("." + f)[1..] == f;
    }
  }

  /** `float` on whole digits, optionally followed by a point and fraction digits. */
  lemma ParseFloatOfParts(w: string, f: string, dot: bool)
    requires AllDigits(w) && AllDigits(f) && (!dot ==> f == [])
    ensures var t := if dot then w + "." + f else w;
      && IsDecimalText(t)
      && (HasDigit(t) <==> HasDigit(w) || HasDigit(f))
      && (HasDigit(t) ==> ParseFloat(t) == Ok(DecimalValue(w, f)))
  {
    DecimalTextOfParts(w, f, dot);
    DigitsOfParts(w, f, dot);
  }

  lemma AppendPoint(w: string, f: string)
    ensures w + ("." + f) == w + "." + f
  {
  }

  /** Group 1 is its whole part, then a point and the fraction digits when it has one. */
  lemma MatchedParts(s: string, i: nat)
    requires MatchesAt(s, i)
    ensures MatchedText(s, i) == WholeText(s, i) + (if NumeralAt(s, i).HasPoint() then "." + FracText(s, i) else [])
  {
    var n := NumeralAt(s, i);
    assert s[n.start..n.end] == s[n.start..n.wholeEnd] + s[n.wholeEnd..n.end];
    if n.HasPoint() {
      assert s[n.wholeEnd..n.end] == [s[n.wholeEnd]] + s[n.wholeEnd + 1..n.end];
    }
  }

  /** The amount a match stands for: its whole part without commas, then its fraction. */
  function MatchValue(s: string, i: nat): real
    requires MatchesAt(s, i)
  {
    DecimalValue(StripCommas(WholeText(s, i)), FracText(s, i))
  }

  /** The point and fraction digits that follow the whole part of a match, if any. */
  function PointTail(s: string, i: nat): string
    requires MatchesAt(s, i)
  {
    if NumeralAt(s, i).HasPoint() then "." + FracText(s, i) else []
  }

  lemma StrippedMatchText(s: string, i: nat)
    requires MatchesAt(s, i)
    ensures StripCommas(MatchedText(s, i)) == StripCommas(WholeText(s, i)) + PointTail(s, i)
  {
    var whole, frac, tail := WholeText(s, i), FracText(s, i), PointTail(s, i);
    MatchedParts(s, i);
    assert forall k :: 0 <= k < |tail| ==> tail[k] != ',' by {
      forall k | 0 <= k < |tail| ensures tail[k] != ',' {
        if k > 0 { assert tail[k] == frac[k - 1] && InClass(frac[k - 1], Digits); }
      }
    }
    StripCommasWithoutCommas(tail);
    StripCommasAppend(whole, tail);
  }

  lemma MatchedDigits(s: string, i: nat)
    requires MatchesAt(s, i)
    ensures HasDigit(MatchedText(s, i)) <==> HasDigit(WholeText(s, i)) || HasDigit(FracText(s, i))
  {
    var tail := PointTail(s, i);
    MatchedParts(s, i);
    HasDigitAppend(WholeText(s, i), tail);
    assert tail != [] ==> tail[1..] == FracText(s, i);
  }

  /** Group 1 with its commas removed is what `float` reads: the whole digits, then
      the point and the fraction digits if the numeral has a point. */
  lemma StrippedMatch(s: string, i: nat)
    requires MatchesAt(s, i)
    ensures var t := StripCommas(MatchedText(s, i));
      && IsDecimalText(t)
      && (HasDigit(t) <==> HasDigit(MatchedText(s, i)))
      && (HasDigit(t) ==> ParseFloat(t) == Ok(MatchValue(s, i)))
  {
    var whole, frac := WholeText(s, i), FracText(s, i);
    var dot := NumeralAt(s, i).HasPoint();
    var w := StripCommas(whole);
    StrippedMatchText(s, i);
    MatchedDigits(s, i);
    StripCommasKeepsDigits(whole);
    AppendPoint(w, frac);
    ParseFloatOfParts(w, frac, dot);
  }

  /** `extract_amount(msg)`: `Ok(0.0)` when the pattern matches nowhere; otherwise the
      amount of the leftmost match, or the `ValueError` of `float` when the matched
      numeral has no digit (as in "₹," or "₹,."). */
  function ExtractAmount(msg: string): (r: Result<real>)
    ensures r.Ok? ==> r.value >= 0.0
  {
    match FindMatch(msg, 0)
    case None => Ok(0.0)
    case Some(i) =>
      StrippedMatch(msg, i);
      ParseFloat(StripCommas(MatchedText(msg, i)))
  }

  /** What `extract_amount` returns: 0 when the pattern matches nowhere; otherwise
      the value of the leftmost match, or the error of `float` when its numeral
      holds no digit. */
  lemma ExtractAmountSpec(msg: string)
    ensures (forall i :: !MatchesAt(msg, i)) ==> ExtractAmount(msg) == Ok(0.0)
    ensures forall i :: IsLeftmostMatch(msg, i) ==>
      ExtractAmount(msg) == if HasDigit(MatchedText(msg, i)) then Ok(MatchValue(msg, i))
                            else Err(NotANumber(StripCommas(MatchedText(msg, i))))
  {
    match FindMatch(msg, 0)
    case None =>
    case Some(i) =>
      StrippedMatch(msg, i);
      assert forall j :: IsLeftmostMatch(msg, j) ==> j == i;
  }

  /** The only way `extract_amount` fails is the `ValueError` of `float`. */
  lemma ExtractAmountFailsOnlyInFloat(msg: string)
    ensures ExtractAmount(msg).Err? ==> ExtractAmount(msg).error.NotANumber?
  {
    ExtractAmountSpec(msg);
    match FindMatch(msg, 0)
    case None =>
    case Some(i) =>
      assert IsLeftmostMatch(msg, i);
  }

  /** A run that ends where its class first fails is the run `RunEnd` finds. */
  lemma {:induction false} RunEndAt(s: string, j: nat, e: nat, cls: CharClass)
    requires j <= e <= |s|
    requires AllIn(s[j..e], cls)
    requires e == |s| || !InClass(s[e], cls)
    ensures RunEnd(s, j, cls) == e
    decreases e - j
  {
    if j < e {
      assert s[j..e][0] == s[j];
      assert s[j + 1..e] == s[j..e][1..];
      RunEndAt(s, j + 1, e, cls);
    }
  }

  lemma SliceAfter(p: string, s: string, a: nat, b: nat)
    requires a <= b <= |s|
    ensures (p + s)[|p| + a..|p| + b] == s[a..b]
  {
  }

  lemma {:induction false} RunEndShift(p: string, s: string, j: nat, cls: CharClass)
    requires j <= |s|
    ensures RunEnd(p + s, |p| + j, cls) == |p| + RunEnd(s, j, cls)
    decreases |s| - j
  {
    assert j < |s| ==> (p + s)[|p| + j] == s[j];
    if j < |s| && InClass(s[j], cls) {
      RunEndShift(p, s, j + 1, cls);
    }
  }

  lemma NumeralShift(p: string, s: string, i: nat)
    requires MatchesAt(s, i) && MatchesAt(p + s, |p| + i)
    ensures var n := NumeralAt(s, i);
      NumeralAt(p + s, |p| + i) == Numeral(|p| + n.start, |p| + n.wholeEnd, |p| + n.end)
  {
    var ps := p + s;
    var j := if IsSpace(s[i + 1]) then i + 2 else i + 1;
    assert ps[|p| + i + 1] == s[i + 1];
    RunEndShift(p, s, j, NumeralChars);
    var w := RunEnd(s, j, NumeralChars);
    assert w < |s| ==> ps[|p| + w] == s[w];
    if w < |s| && s[w] == '.' {
      RunEndShift(p, s, w + 1, Digits);
    }
  }

  /** Whether a match starts at a position depends only on the text from there on. */
  lemma MatchesAtShift(p: string, s: string, i: nat)
    ensures MatchesAt(p + s, |p| + i) <==> MatchesAt(s, i)
  {
    var ps := p + s;
    if i < |s| { assert ps[|p| + i] == s[i]; }
    if i + 1 < |s| { assert ps[|p| + i + 1] == s[i + 1]; }
    if i + 2 < |s| { assert ps[|p| + i + 2] == s[i + 2]; }
  }

  /** A shifted match reads the same group 1 ... */
  lemma MatchedTextShift(p: string, s: string, i: nat)
    requires MatchesAt(s, i) && MatchesAt(p + s, |p| + i)
    ensures MatchedText(p + s, |p| + i) == MatchedText(s, i)
  {
    NumeralShift(p, s, i);
    var n := NumeralAt(s, i);
    SliceAfter(p, s, n.start, n.end);
  }

  /** ... the same whole part ... */
  lemma WholeTextShift(p: string, s: string, i: nat)
    requires MatchesAt(s, i) && MatchesAt(p + s, |p| + i)
    ensures WholeText(p + s, |p| + i) == WholeText(s, i)
  {
    NumeralShift(p, s, i);
    var n := NumeralAt(s, i);
    SliceAfter(p, s, n.start, n.wholeEnd);
  }

  /** Whether group 1 has a point does not move with the match. */
  lemma HasPointShift(p: string, s: string, i: nat)
    requires MatchesAt(s, i) && MatchesAt(p + s, |p| + i)
    ensures NumeralAt(p + s, |p| + i).HasPoint() <==> NumeralAt(s, i).HasPoint()
  {
    NumeralShift(p, s, i);
  }

  /** Without a point there is no fraction. */
  lemma NoPointNoFraction(s: string, i: nat)
    requires MatchesAt(s, i) && !NumeralAt(s, i).HasPoint()
    ensures FracText(s, i) == []
  {
  }

  /** With a point, group 1 is its whole part, the point and the fraction. */
  lemma FractionAfterPoint(s: string, i: nat)
    requires MatchesAt(s, i) && NumeralAt(s, i).HasPoint()
    ensures MatchedText(s, i) == WholeText(s, i) + ("." + FracText(s, i))
  {
    MatchedParts(s, i);
  }

  lemma CancelPrefix(w: string, a: string, b: string)
    requires w + a == w + b
    ensures a == b
  {
    assert a == (w + a)[|w|..];
    assert b == (w + b)[|w|..];
  }

  /** ... and the same fraction: group 1 and its whole part are the same, and what
      follows the whole part is the point and the fraction. */
  lemma FracTextShift(p: string, s: string, i: nat)
    requires MatchesAt(s, i) && MatchesAt(p + s, |p| + i)
    ensures FracText(p + s, |p| + i) == FracText(s, i)
  {
    HasPointShift(p, s, i);
    if NumeralAt(s, i).HasPoint() {
      MatchedTextShift(p, s, i);
      WholeTextShift(p, s, i);
      FractionAfterPoint(s, i);
      FractionAfterPoint(p + s, |p| + i);
      CancelPrefix(WholeText(s, i), "." + FracText(p + s, |p| + i), "." + FracText(s, i));
      CancelPrefix(".", FracText(p + s, |p| + i), FracText(s, i));
    } else {
      NoPointNoFraction(s, i);
      NoPointNoFraction(p + s, |p| + i);
    }
  }

  /** Text in front of a message moves its matches without changing what they read. */
  lemma MatchShift(p: string, s: string, i: nat)
    ensures MatchesAt(p + s, |p| + i) <==> MatchesAt(s, i)
    ensures MatchesAt(s, i) ==>
      && MatchedText(p + s, |p| + i) == MatchedText(s, i)
      && MatchValue(p + s, |p| + i) == MatchValue(s, i)
  {
    MatchesAtShift(p, s, i);
    if MatchesAt(s, i) {
      MatchedTextShift(p, s, i);
      WholeTextShift(p, s, i);
      FracTextShift(p, s, i);
    }
  }

  /** Text without a rupee sign in front of a message does not change its amount:
      `re.search` finds the same figure further along. */
  lemma PrefixWithoutRupee(p: string, s: string)
    requires Rupee !in p
    ensures ExtractAmount(p + s) == ExtractAmount(s)
  {
    ExtractAmountSpec(p + s);
    ExtractAmountSpec(s);
    var ps := p + s;
    forall k | 0 <= k < |p| ensures !MatchesAt(ps, k) {
      assert ps[k] == p[k];
    }
    forall k | |p| <= k ensures MatchesAt(ps, k) <==> MatchesAt(s, k - |p|) {
      MatchShift(p, s, k - |p|);
    }
    match FindMatch(s, 0)
    case None =>
      assert forall k :: !MatchesAt(ps, k);
    case Some(i) =>
      MatchShift(p, s, i);
      assert IsLeftmostMatch(ps, |p| + i);
      assert IsLeftmostMatch(s, i);
  }

  /** What may sit between the sign and the digits: nothing, or one whitespace
      character. */
  predicate IsGap(sp: string) { sp == [] || (|sp| == 1 && IsSpace(sp[0])) }

  /** Text after a figure that does not continue it: after a point, no digit;
      without a point, no digit, comma or point. */
  predicate EndsFigure(q: string, dot: bool) {
    q == [] || (if dot then !IsDigit(q[0]) else !IsNumeralChar(q[0]) && q[0] != '.')
  }

  /** A figure as it is written in a message: `₹`, the gap `sp`, whole digits and
      commas, and, when `dot` holds, `.` and fraction digits. */
  function Figure(sp: string, w: string, f: string, dot: bool): (t: string)
    ensures |t| == 1 + |sp| + |w| + (if dot then 1 + |f| else 0) && t[0] == Rupee
  {
    [Rupee] + sp + w + (if dot then "." + f else [])
  }

  /** Where the parts of a figure sit in the text it heads. */
  lemma FigureLayout(sp: string, w: string, f: string, dot: bool, q: string)
    ensures var s := Figure(sp, w, f, dot) + q;
      var j := 1 + |sp|;
      var e := j + |w| + (if dot then 1 + |f| else 0);
      && s[0] == Rupee && (sp != [] ==> s[1] == sp[0])
      && s[j..j + |w|] == w
      && (dot ==> s[j + |w|] == '.' && s[j + |w| + 1..e] == f)
      && s[e..] == q
  {
    var tail := (if dot then "." + f else []) + q;
    var s := Figure(sp, w, f, dot) + q;
    var j := 1 + |sp|;
    assert s == ([Rupee] + sp) + (w + tail);
    assert s[j..] == w + tail;
    assert s[j..j + |w|] == (w + tail)[..|w|];
    assert s[j + |w|..] == tail;
    if dot {
      assert tail == ['.'] + (f + q);
      assert s[j + |w| + 1..] == f + q;
    }
  }

  /** Where the match of a figure lies: at its sign, with group 1 starting after
      the gap and ending where the figure ends. */
  lemma FigureMatch(sp: string, w: string, f: string, dot: bool, q: string)
    requires IsGap(sp) && w != [] && AllIn(w, NumeralChars)
    requires AllDigits(f) && (!dot ==> f == [])
    requires EndsFigure(q, dot)
    ensures var s := Figure(sp, w, f, dot) + q;
      var j := 1 + |sp|;
      && IsLeftmostMatch(s, 0)
      && NumeralAt(s, 0) == Numeral(j, j + |w|, j + |w| + (if dot then 1 + |f| else 0))
  {
    var s := Figure(sp, w, f, dot) + q;
    var j := 1 + |sp|;
    var e := j + |w| + (if dot then 1 + |f| else 0);
    FigureLayout(sp, w, f, dot, q);
    assert s[j] == s[j..j + |w|][0] == w[0];
    assert InClass(w[0], NumeralChars);
    assert q != [] ==> s[e] == s[e..][0] == q[0];
    assert MatchesAt(s, 0);
    if dot {
      RunEndAt(s, j + |w| + 1, e, Digits);
    }
    RunEndAt(s, j, j + |w|, NumeralChars);
  }

  /** The parts the match of a figure reads are the figure's own. */
  lemma FigureTexts(sp: string, w: string, f: string, dot: bool, q: string)
    requires IsGap(sp) && w != [] && AllIn(w, NumeralChars)
    requires AllDigits(f) && (!dot ==> f == [])
    requires EndsFigure(q, dot)
    ensures var s := Figure(sp, w, f, dot) + q;
      && MatchesAt(s, 0)
      && WholeText(s, 0) == w && FracText(s, 0) == f
  {
    FigureMatch(sp, w, f, dot, q);
    FigureLayout(sp, w, f, dot, q);
    var s := Figure(sp, w, f, dot) + q;
    var n := NumeralAt(s, 0);
    assert WholeText(s, 0) == s[n.start..n.wholeEnd];
    if dot {
      assert n.HasPoint();
      assert FracText(s, 0) == s[n.wholeEnd + 1..n.end];
    } else {
      NoPointNoFraction(s, 0);
    }
  }

  /** A figure with a digit, followed by text that does not continue it, is read
      back as its amount: the whole digits without commas, then the fraction. */
  lemma ExtractFigure(sp: string, w: string, f: string, dot: bool, q: string)
    requires IsGap(sp) && w != [] && AllIn(w, NumeralChars)
    requires AllDigits(f) && (!dot ==> f == [])
    requires HasDigit(w) || HasDigit(f)
    requires EndsFigure(q, dot)
    ensures ExtractAmount(Figure(sp, w, f, dot) + q) == Ok(DecimalValue(StripCommas(w), f))
  {
    var s := Figure(sp, w, f, dot) + q;
    FigureMatch(sp, w, f, dot, q);
    FigureTexts(sp, w, f, dot, q);
    MatchedDigits(s, 0);
    ExtractAt(s, 0);
  }

  /** The same figure anywhere after text that holds no rupee sign. */
  lemma ExtractFigureAfter(p: string, sp: string, w: string, f: string, dot: bool, q: string)
    requires Rupee !in p
    requires IsGap(sp) && w != [] && AllIn(w, NumeralChars)
    requires AllDigits(f) && (!dot ==> f == [])
    requires HasDigit(w) || HasDigit(f)
    requires EndsFigure(q, dot)
    ensures ExtractAmount(p + Figure(sp, w, f, dot) + q) == Ok(DecimalValue(StripCommas(w), f))
  {
    var s := Figure(sp, w, f, dot) + q;
    assert p + Figure(sp, w, f, dot) + q == p + s;
    PrefixWithoutRupee(p, s);
    ExtractFigure(sp, w, f, dot, q);
  }

  // Worked examples of messages as the bank sends them.

  lemma StripThousands()
    ensures StripCommas("1,234") == "1234"
  {
    assert "1,234"[1..] == ",234" && ",234"[1..] == "234";
    assert "234"[1..] == "34" && "34"[1..] == "4" && "4"[1..] == "";
  }

  lemma ValueOfThousands()
    ensures AllDigits("1234") && AllDigits("50")
    ensures DecimalValue("1234", "50") == 1234.5
  {
    assert AllDigits("1234") && AllDigits("50");
    assert DigitsValue("1234") == 1234 by {
      assert "1234"[..3] == "123" && "123"[..2] == "12" && "12"[..1] == "1";
    }
    assert DigitsValue("50") == 50 by {
      assert "50"[..1] == "5";
    }
    assert Pow10(2) == 100;
  }

  /** The amount of a debit message is read across its thousands separator. */
  lemma PaidToAmazon()
    ensures ExtractAmount("Paid \U{20B9}1,234.50 to Amazon") == Ok(1234.5)
  {
    assert "Paid \U{20B9}1,234.50 to Amazon" == "Paid " + Figure([], "1,234", "50", true) + " to Amazon";
    ExtractFigureAfter("Paid ", [], "1,234", "50", true, " to Amazon");
    StripThousands();
    ValueOfThousands();
  }

  lemma ValueOfOnePointTwo()
    ensures DecimalValue(StripCommas("1"), "2") == 1.2
  {
    assert StripCommas("1") == "1";
    assert DigitsValue("1") == 1 && DigitsValue("2") == 2 && Pow10(1) == 10;
  }

  /** Only one point belongs to the figure: the match stops before the second one. */
  lemma SecondPointEndsTheFigure()
    ensures ExtractAmount("\U{20B9}1.2.3") == Ok(1.2)
  {
    assert "\U{20B9}1.2.3" == Figure([], "1", "2", true) + ".3";
    ExtractFigure([], "1", "2", true, ".3");
    ValueOfOnePointTwo();
  }

  lemma ValueOfFiveHundred()
    ensures AllDigits("500") && DecimalValue(StripCommas("500"), []) == 500.0
  {
    assert "500"[1..] == "00" && "00"[1..] == "0" && "0"[1..] == "";
    assert StripCommas("500") == "500";
    assert DigitsValue("500") == 500 by {
      assert "500"[..2] == "50" && "50"[..1] == "5";
    }
  }

  /** A whole amount with one space after the sign. */
  lemma SpaceAfterSign()
    ensures ExtractAmount("Spent \U{20B9} 500 at Zomato") == Ok(500.0)
  {
    assert "Spent \U{20B9} 500 at Zomato" == "Spent " + Figure(" ", "500", [], false) + " at Zomato";
    ExtractFigureAfter("Spent ", " ", "500", [], false, " at Zomato");
    ValueOfFiveHundred();
  }

  /** `\s?` takes at most one whitespace character after the sign. */
  lemma TwoSpacesAfterSign()
    ensures ExtractAmount("\U{20B9}  5") == Ok(0.0)
  {
    ExtractAmountSpec("\U{20B9}  5");
    var s := "\U{20B9}  5";
    assert !IsNumeralChar(s[2]);
    assert forall i :: !MatchesAt(s, i);
  }

  /** A message with no rupee sign has amount 0. */
  lemma NoSign()
    ensures ExtractAmount("Swiggy order") == Ok(0.0)
  {
    ExtractAmountSpec("Swiggy order");
    assert Rupee !in "Swiggy order";
  }

  /** The amount of a message whose leftmost match starts at `i`. */
  lemma ExtractAt(s: string, i: nat)
    requires IsLeftmostMatch(s, i)
    ensures ExtractAmount(s) == if HasDigit(MatchedText(s, i)) then Ok(MatchValue(s, i))
                                else Err(NotANumber(StripCommas(MatchedText(s, i))))
  {
    ExtractAmountSpec(s);
  }

  lemma CommaOnlyMatch()
    ensures IsLeftmostMatch("\U{20B9},", 0) && MatchedText("\U{20B9},", 0) == ","
  {
    var s := "\U{20B9},";
    assert MatchesAt(s, 0);
    assert NumeralAt(s, 0) == Numeral(1, 2, 2);
  }

  /** A figure of commas alone matches, but `float('')` fails. */
  lemma CommaOnly()
    ensures ExtractAmount("\U{20B9},") == Err(NotANumber(""))
  {
    CommaOnlyMatch();
    ExtractAt("\U{20B9},", 0);
    assert !HasDigit(",") && StripCommas(",") == "";
  }

  lemma CommaAndPointMatch()
    ensures IsLeftmostMatch("\U{20B9},.", 0) && MatchedText("\U{20B9},.", 0) == ",."
  {
    var s := "\U{20B9},.";
    assert MatchesAt(s, 0);
    assert NumeralAt(s, 0) == Numeral(1, 2, 3);
  }

  /** A comma and a point match, but `float('.')` fails. */
  lemma CommaAndPoint()
    ensures ExtractAmount("\U{20B9},.") == Err(NotANumber("."))
  {
    CommaAndPointMatch();
    ExtractAt("\U{20B9},.", 0);
    assert ",."[1..] == ".";
    assert !HasDigit(",.") && StripCommas(",.") == ".";
  }
}
