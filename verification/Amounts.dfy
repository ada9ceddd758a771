/** Price text for the catalogue: trailing zeros dropped, integer digits grouped
    by three. Numerals are read with the same digit values as in Parity. */
module Amounts {
  import Parity

  // ---- text ---------------------------------------------------------------------------------

  predicate IsSpace(c: char) {
    c in {'\t', '\n', '\U{b}', '\U{c}', '\r', ' ', '\U{85}', '\U{a0}', '\U{1680}', '\U{2028}', '\U{2029}', '\U{202f}', '\U{205f}', '\U{3000}'}
    || '\U{2000}' <= c <= '\U{200a}'
  }

  function TrimSpace(s: string): string {
    if s != "" && IsSpace(s[0]) then TrimSpace(s[1..])
    else if s != "" && IsSpace(s[|s| - 1]) then TrimSpace(s[..|s| - 1])
    else s
  }

  function TrimPrefix(s: string, c: char): string { if s != "" && s[0] == c then s[1..] else s }

  function TrimZeros(s: string): string { if s != "" && s[|s| - 1] == '0' then TrimZeros(s[..|s| - 1]) else s }

  /** The index of the first point, or the length. */
  function Point(s: string): (i: nat)
    ensures i <= |s| && '.' !in s[..i] && (i < |s| ==> s[i] == '.')
  {
    if s == "" || s[0] == '.' then 0
    else
      var i := Point(s[1..]);
      assert s[..i + 1] == [s[0]] + s[1..][..i];
      i + 1
  }

  function Whole(s: string): string { s[..Point(s)] }
  function Fraction(s: string): string { if Point(s) < |s| then s[Point(s) + 1..] else "" }

  // ---- numerals -----------------------------------------------------------------------------

  function Negative(t: string): bool { t != "" && t[0] == '-' }

  function Unsigned(t: string): string { TrimPrefix(TrimPrefix(t, '+'), '-') }

  /** An optional sign, digits, and at most one point. */
  predicate WellFormed(t: string) {
    var body := if t != "" && t[0] in {'+', '-'} then t[1..] else t;
    Parity.AllDigits(Whole(body)) && Parity.AllDigits(Fraction(body))
  }

  function Numeral(negative: bool, whole: string, fraction: string): real { Parity.Scaled(negative, whole, fraction, 0) }

  /** The number a well-formed text denotes. */
  function Value(t: string): real { Numeral(Negative(t), Whole(Unsigned(t)), Fraction(Unsigned(t))) }

  // ---- formatting ---------------------------------------------------------------------------

  function Grouped(s: string): string { if |s| <= 3 then s else Grouped(s[..|s| - 3]) + "," + s[|s| - 3..] }

  function Joined(whole: string, fraction: string): string { Grouped(whole) + if fraction == "" then "" else "." + fraction }

  function Shown(negative: bool, whole: string, fraction: string): string {
    var out := Joined(if whole == "" then "0" else whole, TrimZeros(fraction));
    if negative && out != "0" then "-" + out else out
  }

  function Formatted(decimal: string): string {
    var t := TrimSpace(decimal);
    if t == "" then "0" else Shown(Negative(t), TrimSpace(Whole(Unsigned(t))), Fraction(Unsigned(t)))
  }

  /** The grouping loop works from the left. */
  method GroupThousands(whole: string) returns (grouped: string)
    ensures grouped == Grouped(whole)
  {
    var head := |whole| % 3;
    grouped := whole[..head];
    var i := head;
    while i < |whole|
      invariant head <= i <= |whole| && (|whole| - i) % 3 == 0
      invariant grouped == Grouped(whole[..i])
    {
      grouped := AppendGroup(whole, i, grouped);
      i := i + 3;
    }
    assert whole[..|whole|] == whole;
  }

  method AppendGroup(whole: string, i: nat, before: string) returns (grouped: string)
    requires i + 3 <= |whole| && before == Grouped(whole[..i])
    ensures grouped == Grouped(whole[..i + 3])
  {
    grouped := before;
    NextGroup(whole, i);
    if grouped != "" {
      grouped := grouped + ",";
    }
    grouped := grouped + whole[i..i + 3];
  }

  lemma NextGroup(whole: string, i: nat)
    requires i + 3 <= |whole|
    ensures Grouped(whole[..i + 3]) == (if i == 0 then "" else Grouped(whole[..i]) + ",") + whole[i..i + 3]
  {
    assert whole[..i + 3][..i] == whole[..i] && whole[..i + 3][i..] == whole[i..i + 3];
  }

  method ShowAmount(negative: bool, digits: string, decimals: string) returns (out: string)
    ensures out == Shown(negative, digits, decimals)
  {
    var whole, fraction := digits, TrimZeros(decimals);
    if whole == "" {
      whole := "0";
    }
    out := GroupThousands(whole);
    if fraction != "" {
      out := out + "." + fraction;
    }
    assert out == Joined(whole, fraction);
    if negative && out != "0" {
      out := "-" + out;
    }
  }

  method FormatJSAmount(decimal: string) returns (out: string)
    ensures out == Formatted(decimal)
  {
    var text := TrimSpace(decimal);
    if text == "" {
      return "0";
    }
    out := ShowAmount(Negative(text), TrimSpace(Whole(Unsigned(text))), Fraction(Unsigned(text)));
  }

  /** White space by code point. */
  lemma SpaceExactly(c: char)
    ensures var n := c as int;
            IsSpace(c) <==> 9 <= n <= 13 || n == 32 || n == 133 || n == 160 || n == 5760 || 8192 <= n <= 8202
                            || n == 8232 || n == 8233 || n == 8239 || n == 8287 || n == 12288
  {
  }

  /** Trimming takes off white space at both ends and all of it. */
  lemma {:induction false} TrimmedExactly(s: string) returns (before: string, after: string)
    ensures s == before + TrimSpace(s) + after
    ensures (forall c <- before + after :: IsSpace(c))
    ensures var t := TrimSpace(s); t != "" ==> !IsSpace(t[0]) && !IsSpace(t[|t| - 1])
    decreases |s|
  {
    before, after := "", "";
    if s != "" && IsSpace(s[0]) {
      before, after := TrimmedExactly(s[1..]);
      before := [s[0]] + before;
    } else if s != "" && IsSpace(s[|s| - 1]) {
      before, after := TrimmedExactly(s[..|s| - 1]);
      after := after + [s[|s| - 1]];
    }
  }

  // ---- grouping -----------------------------------------------------------------------------

  function NoCommas(s: string): string {
    if s == "" then "" else NoCommas(s[..|s| - 1]) + if s[|s| - 1] == ',' then "" else [s[|s| - 1]]
  }

  lemma {:induction false} NoCommasAppend(s: string, t: string)
    ensures NoCommas(s + t) == NoCommas(s) + NoCommas(t)
  {
    if t == "" {
      assert s + t == s;
    } else {
      NoCommasAppend(s, t[..|t| - 1]);
      assert (s + t)[..|s + t| - 1] == s + t[..|t| - 1];
    }
  }

  lemma {:induction false} NoCommasPlain(s: string)
    requires forall i :: 0 <= i < |s| ==> s[i] != ','
    ensures NoCommas(s) == s
  {
    if s != "" {
      NoCommasPlain(s[..|s| - 1]);
      assert s == s[..|s| - 1] + [s[|s| - 1]];
    }
  }

  /** Removing the commas gives the digits back. */
  lemma {:induction false} UngroupedIs(s: string)
    requires Parity.AllDigits(s)
    ensures NoCommas(Grouped(s)) == s
  {
    if |s| <= 3 {
      NoCommasPlain(s);
    } else {
      var front, last := s[..|s| - 3], s[|s| - 3..];
      assert s == front + last;
      UngroupedIs(front);
      OneMoreGroup(Grouped(front), last);
    }
  }

  lemma OneMoreGroup(g: string, last: string)
    requires Parity.AllDigits(last)
    ensures NoCommas(g + "," + last) == NoCommas(g) + last
  {
    NoCommasAppend(g + ",", last);
    NoCommasPlain(last);
    OneMoreComma(g);
  }

  lemma OneMoreComma(g: string)
    ensures NoCommas(g + ",") == NoCommas(g)
  {
    assert (g + ",")[..|g|] == g;
  }

  /** Counting from the right, every fourth character is a comma and no other:
      each group after the first has exactly three digits, the first one to three. */
  lemma {:induction false} GroupsOfThree(s: string, j: nat)
    requires Parity.AllDigits(s) && j < |Grouped(s)|
    ensures var g := Grouped(s);
            (g[|g| - 1 - j] == ',' <==> j % 4 == 3) && |g| % 4 != 0 && (s != "" ==> g[0] != ',')
  {
    if |s| > 3 {
      GroupsOfThree(s[..|s| - 3], if j < 4 then 0 else j - 4);
      ThreeMore(Grouped(s[..|s| - 3]), s[|s| - 3..], j);
    }
  }

  lemma ThreeMore(front: string, last: string, j: nat)
    requires Parity.AllDigits(last) && |last| == 3 && |front| % 4 != 0 && j < |front| + 4
    requires j >= 4 ==> (front[|front| - 1 - (j - 4)] == ',' <==> j % 4 == 3)
    ensures var g := front + "," + last;
            (g[|g| - 1 - j] == ',' <==> j % 4 == 3) && |g| % 4 != 0 && g[0] == front[0]
  {
    if j >= 4 {
      assert (front + "," + last)[|front| + 3 - j] == front[|front| + 3 - j];
    }
  }

  // ---- value --------------------------------------------------------------------------------

  lemma {:induction false} TrimZerosKeeps(negative: bool, whole: string, fraction: string)
    ensures Numeral(negative, whole, TrimZeros(fraction)) == Numeral(negative, whole, fraction)
  {
    if fraction != "" && fraction[|fraction| - 1] == '0' {
      var front := fraction[..|fraction| - 1];
      TrimZerosKeeps(negative, whole, front);
      Parity.MovingThePoint(negative, whole, '0', front, 0);
      assert fraction == front + "0";
    }
  }

  lemma {:induction false} NoTrailingZero(s: string)
    ensures TrimZeros(s) <= s && (TrimZeros(s) == "" || TrimZeros(s)[|TrimZeros(s)| - 1] != '0')
  {
    if s != "" && s[|s| - 1] == '0' {
      NoTrailingZero(s[..|s| - 1]);
    }
  }

  lemma {:induction false} LeadingZero(s: string)
    ensures Parity.DigitsValue("0" + s) == Parity.DigitsValue(s)
  {
    if s == "" {
      assert "0" + s == "0";
      assert "0"[..0] == "";
      assert Parity.DigitsValue("") == 0;
    } else {
      LeadingZero(s[..|s| - 1]);
      assert ("0" + s)[..|s|] == "0" + s[..|s| - 1];
    }
  }

  // ---- what the printed text means --------------------------------------------------------------

  function Text(negative: bool, whole: string, fraction: string): string {
    (if negative then "-" else "") + whole + if fraction == "" then "" else "." + fraction
  }

  lemma PointAt(whole: string, fraction: string)
    requires Parity.AllDigits(whole)
    ensures Point(whole + "." + fraction) == |whole|
  {
    if whole != "" {
      PointAt(whole[1..], fraction);
      assert (whole + "." + fraction)[1..] == whole[1..] + "." + fraction;
    }
  }

  lemma NoPoint(whole: string)
    requires Parity.AllDigits(whole)
    ensures Point(whole) == |whole|
  {
  }

  /** Reading a printed numeral finds its parts again. */
  lemma ReadBack(negative: bool, whole: string, fraction: string)
    requires Parity.AllDigits(whole) && Parity.AllDigits(fraction) && whole != ""
    ensures var t := Text(negative, whole, fraction);
            Negative(t) == negative && Whole(Unsigned(t)) == whole && Fraction(Unsigned(t)) == fraction
  {
    var t := Text(negative, whole, fraction);
    var body := whole + if fraction == "" then "" else "." + fraction;
    assert body[0] == whole[0];
    assert t == (if negative then "-" else "") + body;
    assert t[0] == if negative then '-' else whole[0];
    assert Unsigned(t) == body;
    if fraction == "" {
      NoPoint(whole);
      assert body == whole;
    } else {
      PointAt(whole, fraction);
      assert body == whole + "." + fraction;
    }
  }

  lemma PrintedText(negative: bool, whole: string, fraction: string)
    requires Parity.AllDigits(whole) && Parity.AllDigits(fraction)
    ensures NoCommas((if negative then "-" else "") + Joined(whole, fraction)) == Text(negative, whole, fraction)
  {
    PrintedUnsigned(whole, fraction);
    if negative {
      PrintedSign(Joined(whole, fraction));
    } else {
      assert "" + Joined(whole, fraction) == Joined(whole, fraction);
    }
  }

  lemma PrintedUnsigned(whole: string, fraction: string)
    requires Parity.AllDigits(whole) && Parity.AllDigits(fraction)
    ensures NoCommas(Joined(whole, fraction)) == Text(false, whole, fraction)
  {
    UngroupedIs(whole);
    if fraction == "" {
      assert Joined(whole, fraction) == Grouped(whole) && Text(false, whole, fraction) == whole;
    } else {
      PrintedTail(Grouped(whole), whole, fraction);
    }
  }

  lemma PrintedTail(grouped: string, whole: string, fraction: string)
    requires NoCommas(grouped) == whole && Parity.AllDigits(fraction) && fraction != ""
    ensures NoCommas(grouped + ("." + fraction)) == Text(false, whole, fraction)
  {
    NoCommasAppend(grouped, "." + fraction);
    PlainTail(fraction);
    assert Text(false, whole, fraction) == whole + ("." + fraction);
  }

  lemma PlainTail(fraction: string)
    requires Parity.AllDigits(fraction)
    ensures NoCommas("." + fraction) == "." + fraction
  {
    NoCommasPlain("." + fraction);
  }

  lemma PrintedSign(s: string)
    ensures NoCommas("-" + s) == "-" + NoCommas(s)
  {
    NoCommasAppend("-", s);
    assert "-"[..0] == "" && NoCommas("-") == "-";
  }

  lemma NotSpace(s: string)
    requires Parity.AllDigits(s)
    ensures TrimSpace(s) == s
  {
  }

  /** A minus is printed unless the printed amount is the single digit zero. */
  function Minus(negative: bool, whole: string, fraction: string): bool {
    negative && !(whole == "0" && fraction == "")
  }

  lemma JoinedZero(whole: string, fraction: string)
    requires Parity.AllDigits(whole) && whole != ""
    ensures Joined(whole, fraction) == "0" <==> whole == "0" && fraction == ""
  {
    if |whole| > 3 {
      GroupsOfThree(whole, 3);
    }
  }

  lemma ShownText(negative: bool, whole: string, fraction: string)
    requires Parity.AllDigits(whole) && Parity.AllDigits(fraction)
    ensures var w, f := if whole == "" then "0" else whole, TrimZeros(fraction);
            NoCommas(Shown(negative, whole, fraction)) == Text(Minus(negative, w, f), w, f)
  {
    var w, f := if whole == "" then "0" else whole, TrimZeros(fraction);
    NoTrailingZero(fraction);
    var minus, shown := Minus(negative, w, f), Shown(negative, whole, fraction);
    assert shown == (if minus then "-" else "") + Joined(w, f) by { ShownJoined(negative, whole, fraction); }
    PrintedText(minus, w, f);
  }

  lemma ZeroEitherSign(whole: string)
    requires whole == "0"
    ensures Numeral(true, whole, "") == Numeral(false, whole, "")
  {
    assert whole + "" == "0" && "0"[..0] == "";
    assert Parity.DigitsValue("0") == 10 * Parity.DigitsValue("") + 0 == 0;
  }

  lemma UnsignedBody(t: string)
    requires WellFormed(t)
    ensures Parity.AllDigits(Whole(Unsigned(t))) && Parity.AllDigits(Fraction(Unsigned(t)))
  {
    var body := if t != "" && t[0] in {'+', '-'} then t[1..] else t;
    if body != "" && body[0] != '.' {
      assert Whole(body)[0] == body[0];
    }
  }

  /** Formatting preserves the value: drop the commas and read it back. */
  lemma ValueIsPreserved(decimal: string)
    requires WellFormed(TrimSpace(decimal))
    ensures Value(NoCommas(Formatted(decimal))) == Value(TrimSpace(decimal))
  {
    var t := TrimSpace(decimal);
    UnsignedBody(t);
    var negative, whole, fraction := Negative(t), Whole(Unsigned(t)), Fraction(Unsigned(t));
    if t == "" {
      EmptyIsZero();
    } else {
      NotSpace(whole);
      ShownText(negative, whole, fraction);
      PartsKeepValue(negative, whole, fraction);
    }
  }

  lemma EmptyIsZero()
    ensures Value(NoCommas("0")) == Value("")
  {
    NoCommasPlain("0");
    NoPoint("0");
    NoPoint("");
    LeadingZero("");
    assert "0" + "" == "0";
  }

  lemma PartsKeepValue(negative: bool, whole: string, fraction: string)
    requires Parity.AllDigits(whole) && Parity.AllDigits(fraction)
    ensures var w, f := if whole == "" then "0" else whole, TrimZeros(fraction);
            Value(Text(Minus(negative, w, f), w, f)) == Numeral(negative, whole, fraction)
  {
    var w, f := if whole == "" then "0" else whole, TrimZeros(fraction);
    NoTrailingZero(fraction);
    ReadBack(Minus(negative, w, f), w, f);
    ShownKeepsValue(negative, whole, fraction);
  }

  lemma ShownKeepsValue(negative: bool, whole: string, fraction: string)
    ensures var w, f := if whole == "" then "0" else whole, TrimZeros(fraction);
            Numeral(Minus(negative, w, f), w, f) == Numeral(negative, whole, fraction)
  {
    var w, f := if whole == "" then "0" else whole, TrimZeros(fraction);
    MinusKeeps(negative, w, f);
    TrimZerosKeeps(negative, whole, fraction);
    EmptyWhole(negative, whole, f);
  }

  lemma MinusKeeps(negative: bool, whole: string, fraction: string)
    ensures Numeral(Minus(negative, whole, fraction), whole, fraction) == Numeral(negative, whole, fraction)
  {
    if whole == "0" && fraction == "" {
      ZeroEitherSign(whole);
    }
  }

  lemma EmptyWhole(negative: bool, whole: string, fraction: string)
    ensures Numeral(negative, if whole == "" then "0" else whole, fraction) == Numeral(negative, whole, fraction)
  {
    if whole == "" {
      LeadingZero(fraction);
      assert "" + fraction == fraction;
    }
  }

  // ---- signs and canonical form -------------------------------------------------------------------

  lemma {:induction false} ZeroValue(s: string)
    requires Parity.AllDigits(s)
    ensures 0 <= Parity.DigitsValue(s) && (Parity.DigitsValue(s) == 0 <==> Parity.AllZeros(s))
  {
    if s != "" {
      ZeroValue(s[..|s| - 1]);
    }
  }

  lemma {:induction false} TrimmedToNothing(s: string)
    ensures TrimZeros(s) == "" <==> Parity.AllZeros(s)
  {
    if s != "" && s[|s| - 1] == '0' {
      TrimmedToNothing(s[..|s| - 1]);
    }
  }

  /** Zero is printed with a minus exactly when a negative zero was spelled with
      at least two integer digits; a database numeric never is. */
  lemma NegativeZeroExactly(negative: bool, whole: string, fraction: string)
    requires Parity.AllDigits(whole) && Parity.AllDigits(fraction)
    ensures Parity.AllZeros(whole) && Parity.AllZeros(fraction) ==>
      (Negative(Shown(negative, whole, fraction)) <==> negative && |whole| >= 2)
  {
    if Parity.AllZeros(whole) && Parity.AllZeros(fraction) {
      var w := if whole == "" then "0" else whole;
      TrimmedToNothing(fraction);
      JoinedZero(w, "");
      if |w| > 3 {
        assert Grouped(w) == Joined(w, "");
        StartsWithDigit(w);
      }
      assert |w| <= 1 <==> w == "0";
    }
  }

  lemma {:induction false} StartsWithDigit(s: string)
    requires s != ""
    ensures Grouped(s) != "" && Grouped(s)[0] == s[0]
  {
    if |s| > 3 {
      StartsWithDigit(s[..|s| - 3]);
    }
  }

  /** No leading zeros, no trailing ones, no negative zero. */
  predicate Canonical(negative: bool, whole: string, fraction: string) {
    && Parity.AllDigits(whole) && Parity.AllDigits(fraction) && whole != "" && (|whole| > 1 ==> whole[0] != '0')
    && (fraction != "" ==> fraction[|fraction| - 1] != '0')
    && (negative ==> !Parity.AllZeros(whole + fraction))
  }

  function Zeros(n: nat): string { seq(n, _ => '0') }

  lemma {:induction false} PaddingKeeps(negative: bool, whole: string, fraction: string, n: nat)
    ensures Numeral(negative, whole, fraction + Zeros(n)) == Numeral(negative, whole, fraction)
  {
    if n > 0 {
      PaddingKeeps(negative, whole, fraction, n - 1);
      Parity.MovingThePoint(negative, whole, '0', fraction + Zeros(n - 1), 0);
      assert fraction + Zeros(n) == fraction + Zeros(n - 1) + "0";
    } else {
      assert fraction + Zeros(0) == fraction;
    }
  }

  lemma Pow10Positive(k: int)
    ensures Parity.Pow10(k) > 0.0
    decreases if k < 0 then -k else k
  {
  }

  predicate Signed(negative: bool, d: int, p: real, v: real) { v == Parity.Product(negative, d, p) }

  lemma SameScale(n1: bool, d1: int, n2: bool, d2: int, p: real, v: real)
    requires p > 0.0 && d1 >= 0 && d2 >= 0 && (n1 ==> d1 > 0) && (n2 ==> d2 > 0)
    requires Signed(n1, d1, p, v) && Signed(n2, d2, p, v)
    ensures n1 == n2 && d1 == d2
  {
    var s1, s2 := if n1 then -1.0 else 1.0, if n2 then -1.0 else 1.0;
    assert (s1 * d1 as real - s2 * d2 as real) * p == 0.0;
    assert s1 * d1 as real == s2 * d2 as real;
  }

  lemma {:induction false} SameLengthSameDigits(s: string, t: string)
    requires Parity.AllDigits(s) && Parity.AllDigits(t) && |s| == |t| && Parity.DigitsValue(s) == Parity.DigitsValue(t)
    ensures s == t
  {
    if s != "" {
      var n := |s| - 1;
      SameLengthSameDigits(s[..n], t[..n]);
      assert s == s[..n] + [s[n]] && t == t[..n] + [t[n]];
    }
  }

  function Ten(n: nat): nat { if n == 0 then 1 else 10 * Ten(n - 1) }

  lemma {:induction false} DigitsBounds(s: string)
    requires Parity.AllDigits(s)
    ensures 0 <= Parity.DigitsValue(s) < Ten(|s|)
    ensures s != "" && s[0] != '0' ==> Ten(|s| - 1) <= Parity.DigitsValue(s)
  {
    if s != "" {
      DigitsBounds(s[..|s| - 1]);
    }
  }

  lemma {:induction false} TenGrows(m: nat, n: nat)
    requires m <= n
    ensures Ten(m) <= Ten(n)
  {
    if m < n {
      TenGrows(m, n - 1);
    }
  }

  lemma LongerIsMore(s: string, t: string)
    requires Parity.AllDigits(s) && Parity.AllDigits(t) && |s| < |t| && t[0] != '0'
    ensures Parity.DigitsValue(s) < Parity.DigitsValue(t)
  {
    DigitsBounds(s);
    DigitsBounds(t);
    TenGrows(|s|, |t| - 1);
  }

  lemma NotLonger(w1: string, w2: string, f1: string, f2: string)
    requires Parity.AllDigits(w1) && Parity.AllDigits(w2) && Parity.AllDigits(f1) && Parity.AllDigits(f2) && |f1| == |f2|
    requires w1 != "" && (|w2| > 1 ==> w2[0] != '0')
    requires Parity.DigitsValue(w1 + f1) == Parity.DigitsValue(w2 + f2)
    ensures |w2| <= |w1|
  {
    if |w1| < |w2| {
      LongerIsMore(w1 + f1, w2 + f2);
    }
  }

  lemma LastDigits(s: string, t: string)
    requires s != "" && t != "" && Parity.AllDigits(s) && Parity.AllDigits(t) && Parity.DigitsValue(s) == Parity.DigitsValue(t)
    ensures s[|s| - 1] == t[|t| - 1]
  {
  }

  lemma NonZero(negative: bool, whole: string, fraction: string, n: nat)
    requires Canonical(negative, whole, fraction)
    ensures Parity.DigitsValue(whole + (fraction + Zeros(n))) >= 0
    ensures negative ==> Parity.DigitsValue(whole + (fraction + Zeros(n))) > 0
  {
    var s := whole + (fraction + Zeros(n));
    ZeroValue(s);
    assert forall i :: 0 <= i < |whole + fraction| ==> s[i] == (whole + fraction)[i];
  }

  lemma PaddedEnd(whole: string, fraction: string, n: nat)
    requires n > 0
    ensures var s := whole + (fraction + Zeros(n)); s[|s| - 1] == '0'
  {
  }

  lemma EndOf(whole: string, fraction: string)
    requires fraction != ""
    ensures (whole + fraction)[|whole + fraction| - 1] == fraction[|fraction| - 1]
  {
  }

  lemma LongerFraction(n1: bool, w1: string, f1: string, n2: bool, w2: string, f2: string)
    requires Canonical(n1, w1, f1) && Canonical(n2, w2, f2) && |f1| <= |f2| && Numeral(n1, w1, f1) == Numeral(n2, w2, f2)
    ensures n1 == n2 && |f1| == |f2| && Parity.DigitsValue(w1 + f1) == Parity.DigitsValue(w2 + f2)
  {
    var more := |f2| - |f1|;
    var s, t := w1 + (f1 + Zeros(more)), w2 + f2;
    SameWhenPadded(n1, w1, f1, n2, w2, f2);
    LastDigits(s, t);
    if more > 0 {
      PaddedEnd(w1, f1, more);
      EndOf(w2, f2);
    } else {
      assert f1 + Zeros(0) == f1;
    }
  }

  lemma SameWhenPadded(n1: bool, w1: string, f1: string, n2: bool, w2: string, f2: string)
    requires Canonical(n1, w1, f1) && Canonical(n2, w2, f2) && |f1| <= |f2| && Numeral(n1, w1, f1) == Numeral(n2, w2, f2)
    ensures n1 == n2 && Parity.DigitsValue(w1 + (f1 + Zeros(|f2| - |f1|))) == Parity.DigitsValue(w2 + f2)
  {
    var more := |f2| - |f1|;
    PaddingKeeps(n1, w1, f1, more);
    NonZero(n1, w1, f1, more);
    NonZero(n2, w2, f2, 0);
    assert f2 + Zeros(0) == f2;
    Pow10Positive(-|f2|);
    var v := Numeral(n2, w2, f2);
    AtScale(n1, w1, f1 + Zeros(more), -|f2|, v);
    AtScale(n2, w2, f2, -|f2|, v);
    SameScale(n1, Parity.DigitsValue(w1 + (f1 + Zeros(more))), n2, Parity.DigitsValue(w2 + f2), Parity.Pow10(-|f2|), v);
  }

  lemma AtScale(negative: bool, whole: string, fraction: string, k: int, v: real)
    requires k == -|fraction| && v == Numeral(negative, whole, fraction)
    ensures Signed(negative, Parity.DigitsValue(whole + fraction), Parity.Pow10(k), v)
  {
  }

  /** Equal amounts have one canonical spelling. */
  lemma CanonicalIsUnique(n1: bool, w1: string, f1: string, n2: bool, w2: string, f2: string)
    requires Canonical(n1, w1, f1) && Canonical(n2, w2, f2) && Numeral(n1, w1, f1) == Numeral(n2, w2, f2)
    ensures n1 == n2 && w1 == w2 && f1 == f2
  {
    if |f1| <= |f2| {
      LongerFraction(n1, w1, f1, n2, w2, f2);
    } else {
      LongerFraction(n2, w2, f2, n1, w1, f1);
    }
    NotLonger(w1, w2, f1, f2);
    NotLonger(w2, w1, f2, f1);
    SameLengthSameDigits(w1 + f1, w2 + f2);
    assert w1 == (w1 + f1)[..|w1|] && w2 == (w2 + f2)[..|w2|];
    assert f1 == (w1 + f1)[|w1|..] && f2 == (w2 + f2)[|w2|..];
  }

  /** A text without surplus leading zeros: what the database renders. */
  predicate Plain(t: string) {
    WellFormed(t) && (|Whole(Unsigned(t))| > 1 ==> Whole(Unsigned(t))[0] != '0')
  }

  /** Two database amounts are printed alike exactly when they are equal. */
  lemma SameTextIffSameAmount(a: string, b: string)
    requires Plain(TrimSpace(a)) && Plain(TrimSpace(b))
    ensures Formatted(a) == Formatted(b) <==> Value(TrimSpace(a)) == Value(TrimSpace(b))
  {
    ValueIsPreserved(a);
    ValueIsPreserved(b);
    if Value(TrimSpace(a)) == Value(TrimSpace(b)) {
      var n1, w1, f1 := FormattedParts(a);
      var n2, w2, f2 := FormattedParts(b);
      CanonicalIsUnique(n1, w1, f1, n2, w2, f2);
    }
  }

  lemma FormattedParts(decimal: string) returns (negative: bool, whole: string, fraction: string)
    requires Plain(TrimSpace(decimal))
    ensures Canonical(negative, whole, fraction)
    ensures Formatted(decimal) == (if negative then "-" else "") + Joined(whole, fraction)
    ensures Numeral(negative, whole, fraction) == Value(TrimSpace(decimal))
  {
    var t := TrimSpace(decimal);
    UnsignedBody(t);
    var w, f := Whole(Unsigned(t)), Fraction(Unsigned(t));
    NotSpace(w);
    FormattedAsShown(decimal);
    negative, whole, fraction := ShownParts(Negative(t), w, f);
  }

  lemma FormattedAsShown(decimal: string)
    ensures var t := TrimSpace(decimal);
            Formatted(decimal) == Shown(Negative(t), TrimSpace(Whole(Unsigned(t))), Fraction(Unsigned(t)))
  {
  }

  lemma ShownIsCanonical(minus: bool, w: string, f: string)
    requires Parity.AllDigits(w) && Parity.AllDigits(f) && (|w| > 1 ==> w[0] != '0')
    ensures var whole, fraction := if w == "" then "0" else w, TrimZeros(f);
            Canonical(Minus(minus, whole, fraction), whole, fraction)
  {
    NoTrailingZero(f);
    NotAllZeros(if w == "" then "0" else w, TrimZeros(f));
  }

  lemma ShownParts(minus: bool, w: string, f: string) returns (negative: bool, whole: string, fraction: string)
    requires Parity.AllDigits(w) && Parity.AllDigits(f) && (|w| > 1 ==> w[0] != '0')
    ensures Canonical(negative, whole, fraction)
    ensures Shown(minus, w, f) == (if negative then "-" else "") + Joined(whole, fraction)
    ensures Numeral(negative, whole, fraction) == Numeral(minus, w, f)
  {
    whole, fraction := if w == "" then "0" else w, TrimZeros(f);
    negative := Minus(minus, whole, fraction);
    ShownIsCanonical(minus, w, f);
    ShownKeepsValue(minus, w, f);
    ShownJoined(minus, w, f);
  }

  lemma ShownJoined(negative: bool, whole: string, fraction: string)
    requires Parity.AllDigits(whole) && Parity.AllDigits(fraction)
    ensures var w, f := if whole == "" then "0" else whole, TrimZeros(fraction);
            Shown(negative, whole, fraction) == (if Minus(negative, w, f) then "-" else "") + Joined(w, f)
  {
    var w, f := if whole == "" then "0" else whole, TrimZeros(fraction);
    JoinedZero(w, f);
    assert Joined(w, f) == "" + Joined(w, f);
  }

  lemma NotAllZeros(whole: string, fraction: string)
    requires Parity.AllDigits(whole) && whole != "" && (|whole| > 1 ==> whole[0] != '0')
    requires fraction != "" ==> fraction[|fraction| - 1] != '0'
    ensures Parity.AllZeros(whole + fraction) ==> whole == "0" && fraction == ""
  {
    var s := whole + fraction;
    assert s[0] == whole[0];
    assert fraction != "" ==> s[|s| - 1] == fraction[|fraction| - 1];
  }
}
