/** The parity harness: a recursive, path-addressed diff of two JSON documents
    and the pruning of volatile fields that both of them carry. */
module Parity {
  import opened Common

  // ---- numbers ------------------------------------------------------------------------------

  /** A number literal, piece by piece (section 6 of RFC 8259). `mark` is the
      spelling of the exponent sign: "e", "E+", "e-" and so on. */
  datatype Literal = Literal(negative: bool, whole: string, fraction: string, exponent: Option<Exponent>)
  datatype Exponent = Exponent(mark: string, digits: string)

  function Text(n: Literal): string {
    (if n.negative then "-" else "") + n.whole + (if n.fraction == "" then "" else "." + n.fraction)
    + (match n.exponent case None => "" case Some(e) => e.mark + e.digits)
  }

  function DigitsValue(s: string): int {
    if s == "" then 0 else 10 * DigitsValue(s[..|s| - 1]) + (s[|s| - 1] as int - '0' as int)
  }

  function Pow10(k: int): real
    decreases if k < 0 then -k else k
  {
    if k == 0 then 1.0 else if k > 0 then 10.0 * Pow10(k - 1) else Pow10(k + 1) / 10.0
  }

  function ExponentValue(e: Option<Exponent>): int {
    match e
    case None => 0
    case Some(x) => if x.mark != "" && x.mark[|x.mark| - 1] == '-' then -DigitsValue(x.digits) else DigitsValue(x.digits)
  }

  /** The number a mantissa, a count of fraction digits and an exponent denote. */
  function Scaled(negative: bool, whole: string, fraction: string, exponent: int): real {
    Product(negative, DigitsValue(whole + fraction), Pow10(exponent - |fraction|))
  }

  function Product(negative: bool, mantissa: int, scale: real): real {
    (if negative then -1.0 else 1.0) * mantissa as real * scale
  }

  function Value(n: Literal): real { Scaled(n.negative, n.whole, n.fraction, ExponentValue(n.exponent)) }

  /** Exact comparison, falling back to the spelling for literals the rational
      parser does not accept. */
  predicate NumbersEqual(a: Literal, b: Literal, accepts: string -> bool) {
    if !accepts(Text(a)) || !accepts(Text(b)) then Text(a) == Text(b) else Value(a) == Value(b)
  }

  lemma Pow10Step(k: int)
    ensures Pow10(k + 1) == 10.0 * Pow10(k)
  {
  }

  /** Moving a digit across the decimal point, or dropping a trailing zero of
      the fraction, changes the spelling and not the number. */
  lemma MovingThePoint(negative: bool, whole: string, digit: char, fraction: string, exponent: int)
    ensures Scaled(negative, whole + [digit], fraction, exponent) == Scaled(negative, whole, [digit] + fraction, exponent + 1)
    ensures Scaled(negative, whole, fraction + "0", exponent) == Scaled(negative, whole, fraction, exponent)
  {
    assert whole + [digit] + fraction == whole + ([digit] + fraction);
    var digits := whole + fraction;
    assert whole + (fraction + "0") == digits + "0";
    assert (digits + "0")[..|digits|] == digits;
    var k := exponent - |fraction| - 1;
    Pow10Step(k);
    TenTimes(negative, DigitsValue(digits), Pow10(k));
  }

  lemma TenTimes(negative: bool, v: int, p: real)
    ensures Product(negative, 10 * v, p) == Product(negative, v, 10.0 * p)
  {
    assert (10 * v) as real == 10.0 * v as real;
  }

  const UP: set<string> := {"e", "E", "e+", "E+"}
  const DOWN: set<string> := {"e-", "E-"}

  predicate AllZeros(s: string) { forall i :: 0 <= i < |s| ==> s[i] == '0' }

  lemma {:induction false} ZerosAreZero(s: string)
    requires AllZeros(s)
    ensures DigitsValue(s) == 0
  {
    if s != "" {
      ZerosAreZero(s[..|s| - 1]);
    }
  }

  /** An exponent shifts by its digits' value, up or down as its mark says. */
  lemma ExponentShifts(mark: string, digits: string)
    ensures mark in UP ==> ExponentValue(Some(Exponent(mark, digits))) == DigitsValue(digits)
    ensures mark in DOWN ==> ExponentValue(Some(Exponent(mark, digits))) == -DigitsValue(digits)
  {
  }

  /** A written literal keeps its number when a digit moves behind the point and the
      exponent becomes 1, however the exponent is marked: 51 is 5.1e1. */
  lemma PointInLiteral(negative: bool, whole: string, digit: char, fraction: string, mark: string)
    requires mark in UP
    ensures Value(Literal(negative, whole + [digit], fraction, None))
         == Value(Literal(negative, whole, [digit] + fraction, Some(Exponent(mark, "1"))))
  {
    ExponentShifts(mark, "1");
    assert "1"[..0] == "" && DigitsValue("1") == 10 * DigitsValue("") + 1;
    MovingThePoint(negative, whole, digit, fraction, 0);
  }

  /** One more unit of exponent multiplies the number by ten, or divides it by ten
      under a minus sign. */
  lemma ExponentStep(negative: bool, whole: string, fraction: string, mark: string, less: string, more: string)
    requires DigitsValue(more) == DigitsValue(less) + 1
    ensures var a := Value(Literal(negative, whole, fraction, Some(Exponent(mark, less))));
            var b := Value(Literal(negative, whole, fraction, Some(Exponent(mark, more))));
            (mark in UP ==> b == 10.0 * a) && (mark in DOWN ==> a == 10.0 * b)
  {
    ExponentShifts(mark, less);
    ExponentShifts(mark, more);
    var v := DigitsValue(whole + fraction);
    if mark in UP {
      TimesTen(negative, v, DigitsValue(less) - |fraction|);
    } else if mark in DOWN {
      TimesTen(negative, v, -DigitsValue(more) - |fraction|);
    }
  }

  lemma TimesTen(negative: bool, v: int, k: int)
    ensures Product(negative, v, Pow10(k + 1)) == 10.0 * Product(negative, v, Pow10(k))
  {
    Pow10Step(k);
  }

  /** An all-zero exponent is no exponent. */
  lemma ZeroExponent(negative: bool, whole: string, fraction: string, mark: string, digits: string)
    requires AllZeros(digits) && mark in UP + DOWN
    ensures Value(Literal(negative, whole, fraction, Some(Exponent(mark, digits)))) == Value(Literal(negative, whole, fraction, None))
  {
    ZerosAreZero(digits);
    ExponentShifts(mark, digits);
  }

  /** Plain integers mean their decimal value, and a minus sign negates any literal. */
  lemma PlainLiteral(whole: string, digit: char, fraction: string, exponent: Option<Exponent>)
    ensures Value(Literal(false, "0", "", None)) == 0.0
    ensures Value(Literal(false, whole + [digit], "", None))
         == 10.0 * Value(Literal(false, whole, "", None)) + (digit as int - '0' as int) as real
    ensures Value(Literal(true, whole, fraction, exponent)) == -Value(Literal(false, whole, fraction, exponent))
  {
    assert "0" + "" == "0" && "0"[..0] == "" && DigitsValue("0") == 0;
    assert whole + "" == whole && whole + [digit] + "" == whole + [digit];
    assert (whole + [digit])[..|whole|] == whole;
  }

  predicate AllDigits(s: string) { forall i :: 0 <= i < |s| ==> '0' <= s[i] <= '9' }

  /** A literal of the grammar. */
  predicate Written(n: Literal) {
    && n.whole != "" && AllDigits(n.whole) && AllDigits(n.fraction)
    && (n.exponent.Some? ==> n.exponent.value.mark in UP + DOWN && n.exponent.value.digits != "" && AllDigits(n.exponent.value.digits))
  }

  function ExponentText(e: Option<Exponent>): string { match e case None => "" case Some(x) => x.mark + x.digits }

  function Tail(n: Literal): string { (if n.fraction == "" then "" else "." + n.fraction) + ExponentText(n.exponent) }

  predicate NoDigitFirst(s: string) { s != "" ==> !('0' <= s[0] <= '9') }

  lemma DigitsEndWhere(a: string, x: string, b: string, y: string)
    requires AllDigits(a) && AllDigits(b) && NoDigitFirst(x) && NoDigitFirst(y) && a + x == b + y
    ensures a == b && x == y
  {
    assert forall i :: 0 <= i < |a| ==> (a + x)[i] == a[i];
    assert forall i :: 0 <= i < |b| ==> (b + y)[i] == b[i];
    assert x != "" ==> (a + x)[|a|] == x[0];
    assert y != "" ==> (b + y)[|b|] == y[0];
    assert a == (a + x)[..|a|] && x == (a + x)[|a|..];
    assert b == (b + y)[..|b|] && y == (b + y)[|b|..];
  }

  lemma ExponentIsWritten(n: Literal)
    requires Written(n)
    ensures ExponentText(n.exponent) == "" <==> n.exponent.None?
  {
  }

  lemma ExponentTextDetermines(a: Literal, b: Literal)
    requires Written(a) && Written(b) && ExponentText(a.exponent) == ExponentText(b.exponent)
    ensures a.exponent == b.exponent
  {
    ExponentIsWritten(a);
    ExponentIsWritten(b);
    if a.exponent.Some? && b.exponent.Some? {
      var x, y := a.exponent.value, b.exponent.value;
      MarkEndsWhere(x.mark, x.digits);
      MarkEndsWhere(y.mark, y.digits);
      SplitAt(x.mark, x.digits);
      SplitAt(y.mark, y.digits);
    }
  }

  lemma MarkShape(mark: string)
    requires mark in UP + DOWN
    ensures |mark| == 1 || (|mark| == 2 && mark[1] in {'+', '-'})
  {
  }

  /** A mark has a second character exactly when no digit follows the first. */
  lemma MarkEndsWhere(mark: string, digits: string)
    requires mark in UP + DOWN && digits != "" && AllDigits(digits)
    ensures |mark + digits| >= 2 && |mark| == if '0' <= (mark + digits)[1] <= '9' then 1 else 2
  {
    MarkShape(mark);
    assert (mark + digits)[1] == if |mark| == 1 then digits[0] else mark[1];
  }

  lemma SplitAt(a: string, b: string)
    ensures (a + b)[..|a|] == a && (a + b)[|a|..] == b
  {
  }

  lemma TailStart(n: Literal)
    requires Written(n)
    ensures NoDigitFirst(Tail(n)) && NoDigitFirst(ExponentText(n.exponent))
    ensures n.fraction != "" <==> Tail(n) != "" && Tail(n)[0] == '.'
    ensures n.fraction != "" ==> Tail(n)[1..] == n.fraction + ExponentText(n.exponent)
    ensures n.fraction == "" ==> Tail(n) == ExponentText(n.exponent)
  {
    assert n.exponent.Some? ==> ExponentText(n.exponent)[0] == n.exponent.value.mark[0];
  }

  lemma TextIs(n: Literal)
    requires Written(n)
    ensures Text(n) == (if n.negative then "-" else "") + (n.whole + Tail(n))
    ensures n.negative <==> Text(n)[0] == '-'
  {
    var sign, fraction := if n.negative then "-" else "", if n.fraction == "" then "" else "." + n.fraction;
    RightToLeft(sign, n.whole, fraction, ExponentText(n.exponent));
    assert (sign + (n.whole + Tail(n)))[0] == if n.negative then '-' else n.whole[0];
  }

  lemma RightToLeft(a: string, b: string, c: string, d: string)
    ensures a + b + c + d == a + (b + (c + d))
  {
  }

  /** A literal is determined by its spelling. */
  lemma SpellingDetermines(a: Literal, b: Literal)
    requires Written(a) && Written(b) && Text(a) == Text(b)
    ensures a == b
  {
    TextIs(a);
    TextIs(b);
    assert a.whole + Tail(a) == Text(a)[if a.negative then 1 else 0..];
    assert b.whole + Tail(b) == Text(b)[if b.negative then 1 else 0..];
    TailStart(a);
    TailStart(b);
    DigitsEndWhere(a.whole, Tail(a), b.whole, Tail(b));
    if a.fraction != "" {
      DigitsEndWhere(a.fraction, ExponentText(a.exponent), b.fraction, ExponentText(b.exponent));
    }
    ExponentTextDetermines(a, b);
  }

  /** The fallback: literals of which the parser refuses one are equal if and only if
      they are the same literal. */
  lemma FallbackExactly(a: Literal, b: Literal, accepts: string -> bool)
    requires Written(a) && Written(b) && !(accepts(Text(a)) && accepts(Text(b)))
    ensures NumbersEqual(a, b, accepts) <==> a == b
  {
    if NumbersEqual(a, b, accepts) {
      SpellingDetermines(a, b);
    }
  }

  // ---- documents ----------------------------------------------------------------------------

  datatype Json =
    | Null
    | Bool(flag: bool)
    | Number(literal: Literal)
    | Str(text: string)
    | Arr(items: seq<Json>)
    | Obj(fields: map<string, Json>)

  /** Equal up to key order and exact numeric value. */
  predicate Equal(a: Json, b: Json, accepts: string -> bool)
    decreases a
  {
    match a
    case Number(x) => b.Number? && NumbersEqual(x, b.literal, accepts)
    case Arr(x) => b.Arr? && |x| == |b.items| && forall i :: 0 <= i < |x| ==> Equal(x[i], b.items[i], accepts)
    case Obj(m) => b.Obj? && m.Keys == b.fields.Keys && forall k <- m :: Equal(m[k], b.fields[k], accepts)
    case _ => a == b
  }

  lemma EqualIsReflexive(a: Json, accepts: string -> bool)
    ensures Equal(a, a, accepts)
    decreases a
  {
    match a
    case Arr(x) => forall i | 0 <= i < |x| ensures Equal(x[i], x[i], accepts) { EqualIsReflexive(x[i], accepts); }
    case Obj(m) => forall k <- m ensures Equal(m[k], m[k], accepts) { EqualIsReflexive(m[k], accepts); }
    case _ =>
  }

  lemma {:induction false} EqualIsSymmetric(a: Json, b: Json, accepts: string -> bool)
    requires Equal(a, b, accepts)
    ensures Equal(b, a, accepts)
    decreases a
  {
    match a
    case Arr(x) =>
      forall i | 0 <= i < |x| ensures Equal(b.items[i], x[i], accepts) { EqualIsSymmetric(x[i], b.items[i], accepts); }
    case Obj(m) =>
      forall k <- b.fields ensures Equal(b.fields[k], m[k], accepts) { EqualIsSymmetric(m[k], b.fields[k], accepts); }
    case _ =>
  }

  lemma {:induction false} EqualIsTransitive(a: Json, b: Json, c: Json, accepts: string -> bool)
    requires Equal(a, b, accepts) && Equal(b, c, accepts)
    ensures Equal(a, c, accepts)
    decreases a
  {
    match a
    case Arr(x) =>
      forall i | 0 <= i < |x| ensures Equal(x[i], c.items[i], accepts) {
        EqualIsTransitive(x[i], b.items[i], c.items[i], accepts);
      }
    case Obj(m) =>
      forall k <- m ensures Equal(m[k], c.fields[k], accepts) {
        EqualIsTransitive(m[k], b.fields[k], c.fields[k], accepts);
      }
    case _ =>
  }

  /** The documented example: accepted by the parser, 51 and 5.1e1 are equal and 5e1 and
      5e3 are not. */
  lemma NotationDoesNotMatter(accepts: string -> bool)
    requires forall text :: accepts(text)
    ensures Equal(Number(Literal(false, "51", "", None)), Number(Literal(false, "5", "1", Some(Exponent("e", "1")))), accepts)
    ensures !Equal(Number(Literal(false, "5", "", Some(Exponent("e", "1")))),
                   Number(Literal(false, "5", "", Some(Exponent("e", "3")))), accepts)
  {
    PointInLiteral(false, "5", '1', "", "e");
    assert "5" + ['1'] == "51" && ['1'] + "" == "1";
    FiveTimes();
  }

  lemma FiveTimes()
    ensures Value(Literal(false, "5", "", Some(Exponent("e", "1")))) == 50.0
    ensures Value(Literal(false, "5", "", Some(Exponent("e", "3")))) == 5000.0
  {
    ZeroExponent(false, "5", "", "e", "0");
    PlainLiteral("", '5', "", None);
    assert "" + ['5'] == "5";
    assert DigitsValue("") == 0 && "" + "" == "";
    OneDigits();
    ExponentStep(false, "5", "", "e", "0", "1");
    ExponentStep(false, "5", "", "e", "1", "2");
    ExponentStep(false, "5", "", "e", "2", "3");
  }

  lemma OneDigits()
    ensures DigitsValue("0") == 0 && DigitsValue("1") == 1 && DigitsValue("2") == 2 && DigitsValue("3") == 3
  {
    assert "0"[..0] == "1"[..0] == "2"[..0] == "3"[..0] == "";
  }

  // ---- the diff -----------------------------------------------------------------------------

  datatype Hop = Key(name: string) | Index(at: nat)
  type Path = seq<Hop>

  datatype Finding =
    | Mismatch(want: Json, got: Json)
    | Lengths(wanted: nat, found: nat)
    | Missing(absent: Json)
    | Unexpected(extra: Json)

  datatype Line = Line(path: Path, finding: Finding)

  /** Strings in byte order. */
  predicate Precedes(a: string, b: string) {
    b != "" && (a == "" || a[0] < b[0] || (a[0] == b[0] && Precedes(a[1..], b[1..])))
  }

  lemma PrecedesIsTotal(a: string, b: string)
    ensures a == b || Precedes(a, b) || Precedes(b, a)
  {
    if a != "" && b != "" && a[0] == b[0] {
      PrecedesIsTotal(a[1..], b[1..]);
      assert a == [a[0]] + a[1..] && b == [b[0]] + b[1..];
    }
  }

  lemma PrecedesIsTransitive(a: string, b: string, c: string)
    requires Precedes(a, b) && Precedes(b, c)
    ensures Precedes(a, c) && !Precedes(b, a)
  {
    if a != "" {
      if a[0] == b[0] && b[0] == c[0] {
        PrecedesIsTransitive(a[1..], b[1..], c[1..]);
      } else if a[0] == b[0] {
        PrecedesIsAsymmetric(a[1..], b[1..]);
      }
    }
  }

  lemma PrecedesIsAsymmetric(a: string, b: string)
    requires Precedes(a, b)
    ensures !Precedes(b, a)
  {
  }

  lemma FirstExists(keys: set<string>)
    requires keys != {}
    ensures exists k :: k in keys && forall o <- keys :: o == k || Precedes(k, o)
  {
    var x :| x in keys;
    var rest := keys - {x};
    if rest == {} {
      assert keys == {x};
      assert forall o <- keys :: o == x || Precedes(x, o);
    } else {
      FirstExists(rest);
      var m :| m in rest && forall o <- rest :: o == m || Precedes(m, o);
      PrecedesIsTotal(x, m);
      var k := if Precedes(x, m) then x else m;
      forall o <- keys ensures o == k || Precedes(k, o) {
        if o != k && o != x && k == x && o != m {
          PrecedesIsTransitive(x, m, o);
        }
      }
    }
  }

  predicate Sorted(keys: seq<string>) { forall i, j :: 0 <= i < j < |keys| ==> Precedes(keys[i], keys[j]) }

  ghost function SortedKeys(keys: set<string>): (r: seq<string>)
    ensures Sorted(r)
    ensures forall k :: k in r <==> k in keys
    decreases |keys|
  {
    if keys == {} then []
    else
      FirstExists(keys);
      var k :| k in keys && forall o <- keys :: o == k || Precedes(k, o);
      var rest := SortedKeys(keys - {k});
      assert forall o :: o in rest ==> o in keys && o != k && Precedes(k, o);
      [k] + rest
  }

  ghost function Diff(path: Path, want: Json, got: Json, accepts: string -> bool): seq<Line>
    decreases want, 1, 0
  {
    match want
    case Obj(w) =>
      if !got.Obj? then [Line(path, Mismatch(want, got))]
      else DiffWanted(path, want, got, SortedKeys(w.Keys), accepts) + DiffExtra(path, w, got.fields, SortedKeys(got.fields.Keys))
    case Arr(w) =>
      if !got.Arr? then [Line(path, Mismatch(want, got))]
      else if |w| != |got.items| then [Line(path, Lengths(|w|, |got.items|))]
      else DiffItems(path, want, got, |w|, accepts)
    case _ => if Equal(want, got, accepts) then [] else [Line(path, Mismatch(want, got))]
  }

  ghost function DiffWanted(path: Path, want: Json, got: Json, keys: seq<string>, accepts: string -> bool): seq<Line>
    requires want.Obj? && got.Obj? && forall k :: k in keys ==> k in want.fields
    decreases want, 0, |keys|
  {
    if keys == [] then []
    else
      var k := keys[|keys| - 1];
      var here :=
        if k in got.fields then Diff(path + [Key(k)], want.fields[k], got.fields[k], accepts)
        else [Line(path + [Key(k)], Missing(want.fields[k]))];
      DiffWanted(path, want, got, keys[..|keys| - 1], accepts) + here
  }

  ghost function DiffExtra(path: Path, want: map<string, Json>, got: map<string, Json>, keys: seq<string>): seq<Line>
    requires forall k :: k in keys ==> k in got
  {
    if keys == [] then []
    else
      var k := keys[|keys| - 1];
      DiffExtra(path, want, got, keys[..|keys| - 1])
      + if k in want then [] else [Line(path + [Key(k)], Unexpected(got[k]))]
  }

  ghost function DiffItems(path: Path, want: Json, got: Json, n: nat, accepts: string -> bool): seq<Line>
    requires want.Arr? && got.Arr? && n <= |want.items| && n <= |got.items|
    decreases want, 0, n
  {
    if n == 0 then []
    else DiffItems(path, want, got, n - 1, accepts) + Diff(path + [Index(n - 1)], want.items[n - 1], got.items[n - 1], accepts)
  }

  /** What a reader finds walking both documents along one location: where they
      first part, and how. Knows nothing of traversal order. */
  function Divergence(want: Json, got: Json, at: Path, accepts: string -> bool): Option<Finding>
    decreases |at|
  {
    if want.Obj? && got.Obj? then
      if at == [] || !at[0].Key? then None
      else
        var k := at[0].name;
        if k in want.fields && k in got.fields then Divergence(want.fields[k], got.fields[k], at[1..], accepts)
        else if |at| > 1 then None
        else if k in want.fields then Some(Missing(want.fields[k]))
        else if k in got.fields then Some(Unexpected(got.fields[k]))
        else None
    else if want.Arr? && got.Arr? && |want.items| == |got.items| then
      if at == [] || !at[0].Index? || |want.items| <= at[0].at then None
      else Divergence(want.items[at[0].at], got.items[at[0].at], at[1..], accepts)
    else if at != [] then None
    else if want.Arr? && got.Arr? then Some(Lengths(|want.items|, |got.items|))
    else if Equal(want, got, accepts) then None
    else Some(Mismatch(want, got))
  }

  /** `lines` are exactly the divergences of the two documents, under `path`. */
  ghost predicate Reports(lines: seq<Line>, path: Path, want: Json, got: Json, accepts: string -> bool) {
    && (forall l :: l in lines ==> path <= l.path && Divergence(want, got, l.path[|path|..], accepts) == Some(l.finding))
    && (forall at, f :: Divergence(want, got, at, accepts) == Some(f) ==> Line(path + at, f) in lines)
  }

  /** The same, for the locations that begin with one of `hops`. */
  ghost predicate Covers(lines: seq<Line>, path: Path, hops: set<Hop>, want: Json, got: Json, accepts: string -> bool) {
    && (forall l :: l in lines ==>
         path < l.path && l.path[|path|] in hops && Divergence(want, got, l.path[|path|..], accepts) == Some(l.finding))
    && (forall at, f :: at != [] && at[0] in hops && Divergence(want, got, at, accepts) == Some(f) ==>
         Line(path + at, f) in lines)
  }

  lemma CoversTogether(
      l1: seq<Line>, h1: set<Hop>, l2: seq<Line>, h2: set<Hop>, path: Path, want: Json, got: Json, accepts: string -> bool)
    requires Covers(l1, path, h1, want, got, accepts) && Covers(l2, path, h2, want, got, accepts)
    ensures Covers(l1 + l2, path, h1 + h2, want, got, accepts)
  {
  }

  /** Children both documents have: their own report, one hop further down. */
  lemma CoversChild(lines: seq<Line>, path: Path, hop: Hop, want: Json, got: Json, w: Json, g: Json, accepts: string -> bool)
    requires Reports(lines, path + [hop], w, g, accepts)
    requires forall at: Path :: Divergence(want, got, [hop] + at, accepts) == Divergence(w, g, at, accepts)
    ensures Covers(lines, path, {hop}, want, got, accepts)
  {
    forall l | l in lines
      ensures path < l.path && l.path[|path|] == hop && Divergence(want, got, l.path[|path|..], accepts) == Some(l.finding)
    {
      assert l.path[|path|..] == [hop] + l.path[|path + [hop]|..];
    }
    forall at, f | at != [] && at[0] == hop && Divergence(want, got, at, accepts) == Some(f)
      ensures Line(path + at, f) in lines
    {
      assert at == [hop] + at[1..];
      assert path + [hop] + at[1..] == path + at;
    }
  }

  /** A child only one document has: the one line that says so. */
  lemma CoversLone(path: Path, k: string, want: Json, got: Json, accepts: string -> bool)
    requires want.Obj? && got.Obj? && (k in want.fields <==> k !in got.fields)
    ensures var f := if k in want.fields then Missing(want.fields[k]) else Unexpected(got.fields[k]);
            Covers([Line(path + [Key(k)], f)], path, {Key(k)}, want, got, accepts)
  {
    var f := if k in want.fields then Missing(want.fields[k]) else Unexpected(got.fields[k]);
    assert (path + [Key(k)])[|path|..] == [Key(k)];
    forall at, e | at != [] && at[0] == Key(k) && Divergence(want, got, at, accepts) == Some(e)
      ensures Line(path + at, e) == Line(path + [Key(k)], f)
    {
      assert at == [Key(k)];
    }
  }

  function KeyHops(keys: seq<string>): set<Hop> { set k <- keys :: Key(k) }

  function IndexHops(n: nat): (r: set<Hop>)
    ensures forall h :: h in r <==> h.Index? && h.at < n
  {
    if n == 0 then {} else IndexHops(n - 1) + {Index(n - 1)}
  }

  lemma KeyHopsStep(keys: seq<string>)
    requires keys != []
    ensures KeyHops(keys) == KeyHops(keys[..|keys| - 1]) + {Key(keys[|keys| - 1])}
  {
    var n := |keys| - 1;
    assert keys == keys[..n] + [keys[n]];
  }

  lemma WantedReports(path: Path, want: Json, got: Json, keys: seq<string>, accepts: string -> bool)
    requires want.Obj? && got.Obj? && forall k :: k in keys ==> k in want.fields
    ensures Covers(DiffWanted(path, want, got, keys, accepts), path, KeyHops(keys), want, got, accepts)
    decreases want, 0, |keys|
  {
    if keys != [] {
      var n := |keys| - 1;
      var k := keys[n];
      WantedReports(path, want, got, keys[..n], accepts);
      KeyHopsStep(keys);
      if k in got.fields {
        var w, g := want.fields[k], got.fields[k];
        DiffReportsExactly(path + [Key(k)], w, g, accepts);
        CoversChild(Diff(path + [Key(k)], w, g, accepts), path, Key(k), want, got, w, g, accepts);
        CoversTogether(DiffWanted(path, want, got, keys[..n], accepts), KeyHops(keys[..n]),
                       Diff(path + [Key(k)], w, g, accepts), {Key(k)}, path, want, got, accepts);
      } else {
        CoversLone(path, k, want, got, accepts);
        CoversTogether(DiffWanted(path, want, got, keys[..n], accepts), KeyHops(keys[..n]),
                       [Line(path + [Key(k)], Missing(want.fields[k]))], {Key(k)}, path, want, got, accepts);
      }
    }
  }

  /** The keys of `got` that `want` lacks. */
  function ExtraHops(want: map<string, Json>, keys: seq<string>): set<Hop> { set k <- keys | k !in want :: Key(k) }

  lemma ExtraReports(path: Path, want: Json, got: Json, keys: seq<string>, accepts: string -> bool)
    requires want.Obj? && got.Obj? && forall k :: k in keys ==> k in got.fields
    ensures Covers(DiffExtra(path, want.fields, got.fields, keys), path, ExtraHops(want.fields, keys), want, got, accepts)
    decreases |keys|
  {
    if keys != [] {
      var n := |keys| - 1;
      var k := keys[n];
      ExtraReports(path, want, got, keys[..n], accepts);
      assert keys == keys[..n] + [k];
      if k !in want.fields {
        CoversLone(path, k, want, got, accepts);
        CoversTogether(DiffExtra(path, want.fields, got.fields, keys[..n]), ExtraHops(want.fields, keys[..n]),
                       [Line(path + [Key(k)], Unexpected(got.fields[k]))], {Key(k)}, path, want, got, accepts);
        assert ExtraHops(want.fields, keys) == ExtraHops(want.fields, keys[..n]) + {Key(k)};
      } else {
        assert ExtraHops(want.fields, keys) == ExtraHops(want.fields, keys[..n]);
      }
    }
  }

  lemma ItemsReport(path: Path, want: Json, got: Json, n: nat, accepts: string -> bool)
    requires want.Arr? && got.Arr? && n <= |want.items| == |got.items|
    ensures Covers(DiffItems(path, want, got, n, accepts), path, IndexHops(n), want, got, accepts)
    decreases want, 0, n
  {
    if n > 0 {
      var w, g := want.items[n - 1], got.items[n - 1];
      ItemsReport(path, want, got, n - 1, accepts);
      DiffReportsExactly(path + [Index(n - 1)], w, g, accepts);
      CoversChild(Diff(path + [Index(n - 1)], w, g, accepts), path, Index(n - 1), want, got, w, g, accepts);
      CoversTogether(DiffItems(path, want, got, n - 1, accepts), IndexHops(n - 1),
                     Diff(path + [Index(n - 1)], w, g, accepts), {Index(n - 1)}, path, want, got, accepts);
    }
  }

  /** The diff reports every divergence at its own path, and nothing else. */
  lemma {:induction false} DiffReportsExactly(path: Path, want: Json, got: Json, accepts: string -> bool)
    ensures Reports(Diff(path, want, got, accepts), path, want, got, accepts)
    decreases want, 2, 0
  {
    if want.Obj? && got.Obj? {
      ObjectsReport(path, want, got, accepts);
    } else if want.Arr? && got.Arr? && |want.items| == |got.items| {
      ItemsReport(path, want, got, |want.items|, accepts);
      CoversAll(Diff(path, want, got, accepts), path, IndexHops(|want.items|), want, got, accepts);
    } else {
      LeafReports(path, want, got, accepts);
    }
  }

  lemma LeafReports(path: Path, want: Json, got: Json, accepts: string -> bool)
    requires !(want.Obj? && got.Obj?) && !(want.Arr? && got.Arr? && |want.items| == |got.items|)
    ensures Reports(Diff(path, want, got, accepts), path, want, got, accepts)
  {
    assert path[|path|..] == [] && path + [] == path;
  }

  lemma ObjectsReport(path: Path, want: Json, got: Json, accepts: string -> bool)
    requires want.Obj? && got.Obj?
    ensures Reports(Diff(path, want, got, accepts), path, want, got, accepts)
    decreases want, 1, 0
  {
    var wanted, extra := SortedKeys(want.fields.Keys), SortedKeys(got.fields.Keys);
    WantedReports(path, want, got, wanted, accepts);
    ExtraReports(path, want, got, extra, accepts);
    CoversTogether(DiffWanted(path, want, got, wanted, accepts), KeyHops(wanted),
                   DiffExtra(path, want.fields, got.fields, extra), ExtraHops(want.fields, extra), path, want, got, accepts);
    CoversAll(Diff(path, want, got, accepts), path, KeyHops(wanted) + ExtraHops(want.fields, extra), want, got, accepts);
  }

  lemma CoversAll(lines: seq<Line>, path: Path, hops: set<Hop>, want: Json, got: Json, accepts: string -> bool)
    requires Covers(lines, path, hops, want, got, accepts)
    requires forall at :: Divergence(want, got, at, accepts).Some? ==> at != [] && at[0] in hops
    ensures Reports(lines, path, want, got, accepts)
  {
  }

  // ---- emptiness ----------------------------------------------------------------------------

  lemma WantedEmpty(path: Path, want: Json, got: Json, keys: seq<string>, accepts: string -> bool)
    requires want.Obj? && got.Obj? && forall k :: k in keys ==> k in want.fields
    ensures DiffWanted(path, want, got, keys, accepts) == []
       <==> forall k :: k in keys ==> k in got.fields && Equal(want.fields[k], got.fields[k], accepts)
    decreases want, 0, |keys|
  {
    if keys != [] {
      var n := |keys| - 1;
      var k := keys[n];
      assert keys == keys[..n] + [k];
      WantedEmpty(path, want, got, keys[..n], accepts);
      if k in got.fields {
        EmptyIffEqual(path + [Key(k)], want.fields[k], got.fields[k], accepts);
      }
    }
  }

  lemma ExtraEmpty(path: Path, want: map<string, Json>, got: map<string, Json>, keys: seq<string>)
    requires forall k :: k in keys ==> k in got
    ensures DiffExtra(path, want, got, keys) == [] <==> forall k :: k in keys ==> k in want
  {
    if keys != [] {
      var n := |keys| - 1;
      assert keys == keys[..n] + [keys[n]];
      ExtraEmpty(path, want, got, keys[..n]);
    }
  }

  lemma ItemsEmpty(path: Path, want: Json, got: Json, n: nat, accepts: string -> bool)
    requires want.Arr? && got.Arr? && n <= |want.items| == |got.items|
    ensures DiffItems(path, want, got, n, accepts) == []
       <==> forall i :: 0 <= i < n ==> Equal(want.items[i], got.items[i], accepts)
    decreases want, 0, n
  {
    if n > 0 {
      ItemsEmpty(path, want, got, n - 1, accepts);
      EmptyIffEqual(path + [Index(n - 1)], want.items[n - 1], got.items[n - 1], accepts);
    }
  }

  /** No lines exactly when the documents are equal up to key order and exact
      numeric value. */
  lemma {:induction false} EmptyIffEqual(path: Path, want: Json, got: Json, accepts: string -> bool)
    ensures Diff(path, want, got, accepts) == [] <==> Equal(want, got, accepts)
    decreases want, 2, 0
  {
    if want.Obj? && got.Obj? {
      ObjectsEmpty(path, want, got, accepts);
    } else if want.Arr? && got.Arr? && |want.items| == |got.items| {
      ItemsEmpty(path, want, got, |want.items|, accepts);
    }
  }

  lemma ObjectsEmpty(path: Path, want: Json, got: Json, accepts: string -> bool)
    requires want.Obj? && got.Obj?
    ensures Diff(path, want, got, accepts) == [] <==> Equal(want, got, accepts)
    decreases want, 1, 0
  {
    var wanted, extra := SortedKeys(want.fields.Keys), SortedKeys(got.fields.Keys);
    WantedEmpty(path, want, got, wanted, accepts);
    ExtraEmpty(path, want.fields, got.fields, extra);
    EqualByKeys(want, got, wanted, extra, accepts);
  }

  lemma EqualByKeys(want: Json, got: Json, wanted: seq<string>, extra: seq<string>, accepts: string -> bool)
    requires want.Obj? && got.Obj?
    requires forall k :: k in wanted <==> k in want.fields
    requires forall k :: k in extra <==> k in got.fields
    ensures Equal(want, got, accepts) <==>
      (forall k :: k in wanted ==> k in got.fields && Equal(want.fields[k], got.fields[k], accepts))
      && (forall k :: k in extra ==> k in want.fields)
  {
    if forall k :: k in extra ==> k in want.fields {
      assert forall k :: k in got.fields ==> k in extra && k in want.fields;
    }
    if forall k :: k in wanted ==> k in got.fields && Equal(want.fields[k], got.fields[k], accepts) {
      assert forall k :: k in want.fields ==> k in wanted && k in got.fields;
    }
  }

  /** So "no lines" is an equivalence between documents. */
  lemma NoLinesIsAnEquivalence(path: Path, a: Json, b: Json, c: Json, accepts: string -> bool)
    ensures Diff(path, a, a, accepts) == []
    ensures Diff(path, a, b, accepts) == [] ==> Diff(path, b, a, accepts) == []
    ensures Diff(path, a, b, accepts) == [] && Diff(path, b, c, accepts) == [] ==> Diff(path, a, c, accepts) == []
  {
    EqualIsReflexive(a, accepts);
    EmptyIffEqual(path, a, a, accepts);
    EmptyIffEqual(path, a, b, accepts);
    EmptyIffEqual(path, b, a, accepts);
    EmptyIffEqual(path, b, c, accepts);
    EmptyIffEqual(path, a, c, accepts);
    if Equal(a, b, accepts) {
      EqualIsSymmetric(a, b, accepts);
      if Equal(b, c, accepts) {
        EqualIsTransitive(a, b, c, accepts);
      }
    }
  }

  // ---- pruning volatile fields ----------------------------------------------------------------

  /** Fields of `strip` present on both sides are dropped from both, at every
      location the two documents share. */
  function PrunedWith(want: Json, got: Json, strip: set<string>): (Json, Json)
    decreases want
  {
    if want.Obj? && got.Obj? then
      var w, g := want.fields - strip * got.fields.Keys, got.fields - strip * want.fields.Keys;
      (Obj(map k <- w :: if k in g then PrunedWith(w[k], g[k], strip).0 else w[k]),
       Obj(map k <- g :: if k in w then PrunedWith(w[k], g[k], strip).1 else g[k]))
    else if want.Arr? && got.Arr? then
      (Arr(seq(|want.items|, i requires 0 <= i < |want.items| =>
         if i < |got.items| then PrunedWith(want.items[i], got.items[i], strip).0 else want.items[i])),
       Arr(seq(|got.items|, i requires 0 <= i < |got.items| =>
         if i < |want.items| then PrunedWith(want.items[i], got.items[i], strip).1 else got.items[i])))
    else (want, got)
  }

  /** Equal when the values of `strip` fields are ignored wherever both sides
      have them; a field only one side has is never ignored. */
  predicate EqualIgnoring(a: Json, b: Json, strip: set<string>, accepts: string -> bool)
    decreases a
  {
    match a
    case Number(x) => b.Number? && NumbersEqual(x, b.literal, accepts)
    case Arr(x) => b.Arr? && |x| == |b.items| && forall i :: 0 <= i < |x| ==> EqualIgnoring(x[i], b.items[i], strip, accepts)
    case Obj(m) =>
      b.Obj? && m.Keys == b.fields.Keys && forall k <- m :: k !in strip ==> EqualIgnoring(m[k], b.fields[k], strip, accepts)
    case _ => a == b
  }

  lemma {:induction false} PrunedEqualIffEqualIgnoring(want: Json, got: Json, strip: set<string>, accepts: string -> bool)
    ensures var p := PrunedWith(want, got, strip);
            Equal(p.0, p.1, accepts) <==> EqualIgnoring(want, got, strip, accepts)
    decreases want
  {
    var p := PrunedWith(want, got, strip);
    if want.Obj? && got.Obj? {
      PrunedObjects(want, got, strip, accepts);
    } else if want.Arr? && got.Arr? && |want.items| == |got.items| {
      forall i | 0 <= i < |want.items|
        ensures Equal(p.0.items[i], p.1.items[i], accepts) <==> EqualIgnoring(want.items[i], got.items[i], strip, accepts)
      {
        PrunedEqualIffEqualIgnoring(want.items[i], got.items[i], strip, accepts);
      }
    }
  }

  lemma PrunedObjects(want: Json, got: Json, strip: set<string>, accepts: string -> bool)
    requires want.Obj? && got.Obj?
    ensures var p := PrunedWith(want, got, strip);
            Equal(p.0, p.1, accepts) <==> EqualIgnoring(want, got, strip, accepts)
    decreases want, 0
  {
    var p := PrunedWith(want, got, strip);
    var w, g := p.0.fields, p.1.fields;
    assert w.Keys == want.fields.Keys - strip * got.fields.Keys;
    assert g.Keys == got.fields.Keys - strip * want.fields.Keys;
    assert w.Keys == g.Keys <==> want.fields.Keys == got.fields.Keys by {
      assert forall k :: k in want.fields.Keys <==> k in w.Keys || (k in strip && k in want.fields.Keys && k in got.fields.Keys);
      assert forall k :: k in got.fields.Keys <==> k in g.Keys || (k in strip && k in want.fields.Keys && k in got.fields.Keys);
    }
    forall k <- want.fields | k in got.fields && k !in strip
      ensures Equal(w[k], g[k], accepts) <==> EqualIgnoring(want.fields[k], got.fields[k], strip, accepts)
    {
      PrunedEqualIffEqualIgnoring(want.fields[k], got.fields[k], strip, accepts);
    }
  }

  /** Ignoring is an equivalence too, so a replay verdict can be chained. */
  lemma {:induction false} IgnoringIsTransitive(a: Json, b: Json, c: Json, strip: set<string>, accepts: string -> bool)
    requires EqualIgnoring(a, b, strip, accepts) && EqualIgnoring(b, c, strip, accepts)
    ensures EqualIgnoring(a, c, strip, accepts)
    decreases a
  {
    match a
    case Arr(x) =>
      forall i | 0 <= i < |x| ensures EqualIgnoring(x[i], c.items[i], strip, accepts) {
        IgnoringIsTransitive(x[i], b.items[i], c.items[i], strip, accepts);
      }
    case Obj(m) =>
      forall k <- m | k !in strip ensures EqualIgnoring(m[k], c.fields[k], strip, accepts) {
        IgnoringIsTransitive(m[k], b.fields[k], c.fields[k], strip, accepts);
      }
    case _ =>
  }

  function Names(strip: seq<string>): set<string> { set f <- strip }

  /** The in-place form: strip the shared fields one by one, then descend into
      every pair of children. */
  method PrunePair(want: Json, got: Json, strip: seq<string>) returns (w: Json, g: Json)
    ensures (w, g) == PrunedWith(want, got, Names(strip))
    decreases want, 1
  {
    w, g := want, got;
    if want.Obj? && got.Obj? {
      w, g := PruneFields(want, got, strip);
    } else if want.Arr? && got.Arr? {
      w, g := PruneItems(want, got, strip);
    }
  }

  method PruneFields(want: Json, got: Json, strip: seq<string>) returns (w: Json, g: Json)
    requires want.Obj? && got.Obj?
    ensures (w, g) == PrunedWith(want, got, Names(strip))
    decreases want, 0
  {
    ghost var names := Names(strip);
    var wMap, gMap := StripShared(want.fields, got.fields, strip);
    var w0, g0, left := wMap, gMap, wMap.Keys * gMap.Keys;
    while left != {}
      invariant left <= w0.Keys * g0.Keys && wMap.Keys == w0.Keys && gMap.Keys == g0.Keys
      invariant forall k <- w0 :: wMap[k] == if k in g0 && k !in left then PrunedWith(w0[k], g0[k], names).0 else w0[k]
      invariant forall k <- g0 :: gMap[k] == if k in w0 && k !in left then PrunedWith(w0[k], g0[k], names).1 else g0[k]
      decreases left
    {
      var k :| k in left;
      assert w0[k] == want.fields[k];
      var wv, gv := PrunePair(w0[k], g0[k], strip);
      wMap, gMap := wMap[k := wv], gMap[k := gv];
      left := left - {k};
    }
    w, g := Obj(wMap), Obj(gMap);
    assert wMap == PrunedWith(want, got, names).0.fields && gMap == PrunedWith(want, got, names).1.fields;
  }

  method PruneItems(want: Json, got: Json, strip: seq<string>) returns (w: Json, g: Json)
    requires want.Arr? && got.Arr?
    ensures (w, g) == PrunedWith(want, got, Names(strip))
    decreases want, 0
  {
    ghost var names := Names(strip);
    var n := if |got.items| < |want.items| then |got.items| else |want.items|;
    var wArr, gArr := want.items, got.items;
    for i := 0 to n
      invariant |wArr| == |want.items| && |gArr| == |got.items|
      invariant forall j :: 0 <= j < i ==> (wArr[j], gArr[j]) == PrunedWith(want.items[j], got.items[j], names)
      invariant forall j :: i <= j < |wArr| ==> wArr[j] == want.items[j]
      invariant forall j :: i <= j < |gArr| ==> gArr[j] == got.items[j]
    {
      var wv, gv := PrunePair(want.items[i], got.items[i], strip);
      wArr, gArr := wArr[i := wv], gArr[i := gv];
    }
    w, g := Arr(wArr), Arr(gArr);
    assert wArr == PrunedWith(want, got, names).0.items && gArr == PrunedWith(want, got, names).1.items;
  }

  method StripShared(want: map<string, Json>, got: map<string, Json>, strip: seq<string>)
      returns (w: map<string, Json>, g: map<string, Json>)
    ensures var names := Names(strip);
            w == want - names * got.Keys && g == got - names * want.Keys
  {
    w, g := want, got;
    for i := 0 to |strip|
      invariant var names := Names(strip[..i]);
                w == want - names * got.Keys && g == got - names * want.Keys
    {
      if strip[i] in w && strip[i] in g {
        w, g := w - {strip[i]}, g - {strip[i]};
      }
      assert strip[..i + 1] == strip[..i] + [strip[i]];
      assert Names(strip[..i + 1]) == Names(strip[..i]) + {strip[i]};
    }
    assert strip[..|strip|] == strip;
  }

  /** After pruning, no lines exactly when the documents are equal ignoring the
      stripped fields that both have at the same location. */
  lemma PrunedDiffEmptyIff(path: Path, want: Json, got: Json, strip: set<string>, accepts: string -> bool)
    ensures var p := PrunedWith(want, got, strip);
            Diff(path, p.0, p.1, accepts) == [] <==> EqualIgnoring(want, got, strip, accepts)
  {
    var p := PrunedWith(want, got, strip);
    EmptyIffEqual(path, p.0, p.1, accepts);
    PrunedEqualIffEqualIgnoring(want, got, strip, accepts);
  }
}
