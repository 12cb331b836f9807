/** The text primitives the wire protocol relies on, with the semantics of the
    Java and Python library calls that the system uses:

    - `JavaSplit`     String.split with a literal separator (trailing empty
                      pieces are discarded, an input without the separator
                      yields itself);
    - `Trim`          String.trim (strips characters up to U+0020 at both ends);
    - `ParseInt`      Integer.parseInt (optional sign, ASCII digits, 32-bit range);
    - `ParseDouble`   Double.parseDouble restricted to finite decimal literals;
    - `IntToText`     Integer.toString / Python str(int);
    - `RenderDecimal` the finite decimal rendering of a Python float.

    Every parser is paired with its producer by a round-trip lemma.
 */
module JavaText {
  import opened Wrappers

  /** Bounds of a Java `int`. */
  const INT_MIN: int := -0x8000_0000
  const INT_MAX: int := 0x7FFF_FFFF

  predicate IsDigit(c: char) {
    '0' <= c <= '9'
  }

  predicate AllDigits(s: string) {
    forall i :: 0 <= i < |s| ==> IsDigit(s[i])
  }

  function DigitValue(c: char): nat
    requires IsDigit(c)
  {
    (c as int) - ('0' as int)
  }

  function DigitChar(d: nat): (c: char)
    requires d < 10
    ensures IsDigit(c) && DigitValue(c) == d
  {
    (('0' as int) + d) as char
  }

  /** The number a string of decimal digits denotes, most significant first. */
  function DigitsValue(s: string): nat
    requires AllDigits(s)
    decreases |s|
  {
    if |s| == 0 then 0 else DigitsValue(s[..|s| - 1]) * 10 + DigitValue(s[|s| - 1])
  }

  /** The canonical decimal text of a natural number (no leading zeros). */
  function NatToText(n: nat): (s: string)
    ensures |s| > 0 && AllDigits(s)
    decreases n
  {
    if n < 10 then [DigitChar(n)] else NatToText(n / 10) + [DigitChar(n % 10)]
  }

  /** Integer.toString and Python's str(int) agree on this rendering. */
  function IntToText(n: int): (s: string)
    ensures |s| > 0 && IsDigit(s[|s| - 1])
    ensures n >= 0 ==> AllDigits(s)
    ensures n < 0 ==> s[0] == '-' && AllDigits(s[1..])
  {
    if n < 0 then "-" + NatToText(-n) else NatToText(n)
  }

  lemma {:induction false} NatToTextValue(n: nat)
    ensures DigitsValue(NatToText(n)) == n
    decreases n
  {
    if n >= 10 {
      NatToTextValue(n / 10);
      var s := NatToText(n);
      assert s[..|s| - 1] == NatToText(n / 10);
    }
  }

  // ---------------------------------------------------------------------
  // Integer.parseInt

  /** Integer.parseInt(s): an optional '+' or '-', then one or more digits,
      and a value inside the 32-bit range; anything else is a
      NumberFormatException. */
  function ParseInt(s: string): (r: Result<int>)
    ensures r.Ok? ==> INT_MIN <= r.value <= INT_MAX
    ensures r.Ok? ==> |s| > 0 && IsDigit(s[|s| - 1])
    ensures |s| == 0 ==> r == Fail(NumberFormat)
  {
    if |s| == 0 then Fail(NumberFormat)
    else
      var signed := s[0] == '-' || s[0] == '+';
      var body := if signed then s[1..] else s;
      if |body| == 0 || !AllDigits(body) then Fail(NumberFormat)
      else
        var magnitude: int := DigitsValue(body);
        var v := if s[0] == '-' then -magnitude else magnitude;
        if INT_MIN <= v <= INT_MAX then Ok(v) else Fail(NumberFormat)
  }

  /** Every 32-bit integer survives rendering and parsing. */
  lemma ParseIntRoundTrip(n: int)
    requires INT_MIN <= n <= INT_MAX
    ensures ParseInt(IntToText(n)) == Ok(n)
  {
    var s := IntToText(n);
    if n < 0 {
      NatToTextValue(-n);
      assert s[1..] == NatToText(-n);
    } else {
      NatToTextValue(n);
    }
  }

  // ---------------------------------------------------------------------
  // String.trim

  function TrimStart(s: string): (r: string)
    ensures |r| <= |s| && r == s[|s| - |r|..]
    ensures |r| > 0 ==> r[0] > ' '
  {
    if |s| > 0 && s[0] <= ' ' then TrimStart(s[1..]) else s
  }

  function TrimEnd(s: string): (r: string)
    ensures |r| <= |s| && r == s[..|r|]
    ensures |r| > 0 ==> r[|r| - 1] > ' '
  {
    if |s| > 0 && s[|s| - 1] <= ' ' then TrimEnd(s[..|s| - 1]) else s
  }

  /** String.trim: the input without its leading and trailing characters
      whose code is at most U+0020. */
  function Trim(s: string): (r: string)
    ensures |r| <= |s|
    ensures |r| > 0 ==> r[0] > ' ' && r[|r| - 1] > ' '
  {
    TrimEnd(TrimStart(s))
  }

  lemma TrimIdentity(s: string)
    requires |s| > 0 && s[0] > ' ' && s[|s| - 1] > ' '
    ensures Trim(s) == s
  {
  }

  // ---------------------------------------------------------------------
  // String.split with a literal separator

  /** First position at or after `from` where `sep` occurs in `s`. */
  function IndexFrom(s: string, sep: string, from: nat): (r: Option<nat>)
    requires |sep| > 0
    ensures r.Some? ==> from <= r.value && r.value + |sep| <= |s| && s[r.value..r.value + |sep|] == sep
    decreases |s| - from
  {
    if from + |sep| > |s| then None
    else if s[from..from + |sep|] == sep then Some(from)
    else IndexFrom(s, sep, from + 1)
  }

  function IndexOf(s: string, sep: string): Option<nat>
    requires |sep| > 0
  {
    IndexFrom(s, sep, 0)
  }

  /** Pieces between successive occurrences of `sep`, keeping empty ones. */
  function RawSplit(s: string, sep: string): (parts: seq<string>)
    requires |sep| > 0
    ensures |parts| > 0
    decreases |s|
  {
    match IndexOf(s, sep)
    case None => [s]
    case Some(i) => [s[..i]] + RawSplit(s[i + |sep|..], sep)
  }

  function DropTrailingEmpty(parts: seq<string>): (r: seq<string>)
    ensures |r| <= |parts| && r == parts[..|r|]
    ensures |r| > 0 ==> r[|r| - 1] != ""
  {
    if |parts| > 0 && parts[|parts| - 1] == "" then DropTrailingEmpty(parts[..|parts| - 1]) else parts
  }

  /** String.split(sep) for a separator without regular-expression
      metacharacters (or quoted with Pattern.quote). */
  function JavaSplit(s: string, sep: string): (parts: seq<string>)
    requires |sep| > 0
    ensures IndexOf(s, sep).None? ==> parts == [s]
  {
    if IndexOf(s, sep).None? then [s] else DropTrailingEmpty(RawSplit(s, sep))
  }

  /** The pieces glued back together with `sep` in between. */
  function Join(parts: seq<string>, sep: string): string
  {
    if |parts| == 0 then ""
    else if |parts| == 1 then parts[0]
    else parts[0] + sep + Join(parts[1..], sep)
  }

  lemma {:induction false} IndexFromAbsent(s: string, sep: string, from: nat)
    requires |sep| > 0 && from <= |s| && sep[0] !in s[from..]
    ensures IndexFrom(s, sep, from) == None
    decreases |s| - from
  {
    if from + |sep| <= |s| {
      assert s[from..from + |sep|][0] == s[from..][0];
      IndexFromAbsent(s, sep, from + 1);
    }
  }

  lemma {:induction false} IndexFromFirst(p: string, sep: string, rest: string, from: nat)
    requires |sep| > 0 && sep[0] !in p && from <= |p|
    ensures IndexFrom(p + sep + rest, sep, from) == Some(|p|)
    decreases |p| - from
  {
    var s := p + sep + rest;
    if from < |p| {
      assert s[from..from + |sep|][0] == p[from];
      IndexFromFirst(p, sep, rest, from + 1);
    } else {
      assert s[from..from + |sep|] == sep;
    }
  }

  lemma {:induction false} RawSplitJoin(parts: seq<string>, sep: string)
    requires |sep| > 0 && |parts| > 0
    requires forall i :: 0 <= i < |parts| ==> sep[0] !in parts[i]
    ensures RawSplit(Join(parts, sep), sep) == parts
    decreases |parts|
  {
    if |parts| == 1 {
      IndexFromAbsent(parts[0], sep, 0);
    } else {
      var s := Join(parts, sep);
      IndexFromFirst(parts[0], sep, Join(parts[1..], sep), 0);
      assert s[|parts[0]| + |sep|..] == Join(parts[1..], sep);
      assert s[..|parts[0]|] == parts[0];
      RawSplitJoin(parts[1..], sep);
    }
  }

  /** A character in neither the separator nor any piece is not in the
      joined text. */
  lemma {:induction false} JoinAvoids(parts: seq<string>, sep: string, c: char)
    requires c !in sep
    requires forall i :: 0 <= i < |parts| ==> c !in parts[i]
    ensures c !in Join(parts, sep)
    decreases |parts|
  {
    if |parts| > 1 {
      JoinAvoids(parts[1..], sep, c);
    }
  }

  /** Integer text holds only digits and a leading minus. */
  lemma IntTextChars(n: int, c: char)
    requires c != '-' && !IsDigit(c)
    ensures c !in IntToText(n)
  {
  }

  /** Splitting undoes joining when no piece contains the separator's first
      character and the last piece is not empty. */
  lemma SplitJoin(parts: seq<string>, sep: string)
    requires |sep| > 0 && |parts| > 0
    requires forall i :: 0 <= i < |parts| ==> sep[0] !in parts[i]
    requires parts[|parts| - 1] != ""
    ensures JavaSplit(Join(parts, sep), sep) == parts
  {
    RawSplitJoin(parts, sep);
    if |parts| == 1 {
      IndexFromAbsent(parts[0], sep, 0);
    } else {
      IndexFromFirst(parts[0], sep, Join(parts[1..], sep), 0);
    }
  }

  // ---------------------------------------------------------------------
  // Finite decimal literals: Double.parseDouble and Python's float rendering

  function Pow10(n: nat): (p: real)
    ensures p >= 1.0
  {
    if n == 0 then 1.0 else 10.0 * Pow10(n - 1)
  }

  /** 10 raised to a possibly negative exponent. */
  function Scale(e: int): (p: real)
    ensures p > 0.0
  {
    if e >= 0 then Pow10(e) else 1.0 / Pow10(-e)
  }

  /** Length of the run of digits at the start of `s`. */
  function DigitRun(s: string): (n: nat)
    ensures n <= |s| && AllDigits(s[..n])
    ensures n < |s| ==> !IsDigit(s[n])
  {
    if |s| > 0 && IsDigit(s[0]) then 1 + DigitRun(s[1..]) else 0
  }

  /** The value of `whole.fraction` given as two digit strings. */
  function Mantissa(whole: string, fraction: string): real
    requires AllDigits(whole) && AllDigits(fraction)
  {
    DigitsValue(whole) as real + DigitsValue(fraction) as real / Pow10(|fraction|)
  }

  /** The characters a finite decimal literal is written with. */
  predicate LiteralChars(s: string) {
    forall i :: 0 <= i < |s| ==> IsDigit(s[i]) || s[i] in "+-.eE"
  }

  /** A finite decimal literal as written: sign, whole digits, fraction
      digits and the exponent (0 when none is written). */
  datatype Literal = Literal(negative: bool, whole: string, fraction: string, exponent: int)

  predicate ValidLiteral(l: Literal) {
    AllDigits(l.whole) && AllDigits(l.fraction)
  }

  /** The number a literal denotes. */
  function LiteralValue(l: Literal): real
    requires ValidLiteral(l)
  {
    var magnitude := Mantissa(l.whole, l.fraction) * Scale(l.exponent);
    if l.negative then -magnitude else magnitude
  }

  /** An exponent part: an optional sign, then one or more digits, then nothing. */
  function ParseExponent(s: string): (r: Result<int>)
    ensures r.Ok? ==> LiteralChars(s)
    ensures r.Fail? ==> r.fault == NumberFormat
  {
    var signed := |s| > 0 && (s[0] == '-' || s[0] == '+');
    var body := if signed then s[1..] else s;
    if |body| == 0 || !AllDigits(body) then Fail(NumberFormat)
    else
      var magnitude: int := DigitsValue(body);
      if |s| > 0 && s[0] == '-' then Ok(-magnitude) else Ok(magnitude)
  }

  /** An unsigned decimal literal: digits, an optional '.' and digits (at
      least one digit in all) and an optional exponent introduced by 'e'/'E'. */
  function ParseUnsigned(t: string, negative: bool): (r: Result<Literal>)
    ensures r.Ok? ==> ValidLiteral(r.value) && r.value.negative == negative
    ensures r.Ok? ==> LiteralChars(t) && |t| > 0
    ensures r.Fail? ==> r.fault == NumberFormat
  {
    var w := DigitRun(t);
    var r := ParseAfterWhole(negative, t[..w], t[w..]);
    if r.Ok? then PrefixLiteralChars(t, w); r else r
  }

  /** A digit run followed by literal characters is literal characters. */
  lemma PrefixLiteralChars(t: string, w: nat)
    requires w <= |t| && AllDigits(t[..w]) && LiteralChars(t[w..])
    ensures LiteralChars(t)
  {
    forall i | 0 <= i < |t|
      ensures IsDigit(t[i]) || t[i] in "+-.eE"
    {
      if i < w {
        assert t[i] == t[..w][i];
      } else {
        assert t[i] == t[w..][i - w];
      }
    }
  }

  function ParseAfterWhole(negative: bool, whole: string, tail: string): (r: Result<Literal>)
    requires AllDigits(whole)
    ensures r.Ok? ==> ValidLiteral(r.value) && r.value.negative == negative
    ensures r.Ok? ==> LiteralChars(tail) && |whole| + |tail| > 0
    ensures r.Fail? ==> r.fault == NumberFormat
  {
    if |tail| > 0 && tail[0] == '.' then
      var f := DigitRun(tail[1..]);
      var r := ParseAfterFraction(negative, whole, tail[1..][..f], tail[1 + f..]);
      if r.Ok? then DotLiteralChars(tail, f); r else r
    else ParseAfterFraction(negative, whole, "", tail)
  }

  /** A '.', a digit run and literal characters are literal characters. */
  lemma DotLiteralChars(tail: string, f: nat)
    requires |tail| > 0 && tail[0] == '.' && f <= |tail| - 1
    requires AllDigits(tail[1..][..f]) && LiteralChars(tail[1 + f..])
    ensures LiteralChars(tail)
  {
    forall i | 0 <= i < |tail|
      ensures IsDigit(tail[i]) || tail[i] in "+-.eE"
    {
      if i == 0 {
        assert tail[i] == '.';
      } else if i < 1 + f {
        assert tail[i] == tail[1..][..f][i - 1];
      } else {
        assert tail[i] == tail[1 + f..][i - 1 - f];
      }
    }
  }

  function ParseAfterFraction(negative: bool, whole: string, fraction: string, rest: string): (r: Result<Literal>)
    requires AllDigits(whole) && AllDigits(fraction)
    ensures r.Ok? ==> r.value.whole == whole && r.value.fraction == fraction && r.value.negative == negative
    ensures r.Ok? ==> |whole| + |fraction| > 0
    ensures r.Ok? ==> LiteralChars(rest)
    ensures r.Fail? ==> r.fault == NumberFormat
  {
    if |whole| + |fraction| == 0 then Fail(NumberFormat)
    else if |rest| == 0 then Ok(Literal(negative, whole, fraction, 0))
    else if rest[0] == 'e' || rest[0] == 'E' then
      var e :- ParseExponent(rest[1..]);
      Ok(Literal(negative, whole, fraction, e))
    else Fail(NumberFormat)
  }

  /** The literal of an already trimmed text, with its optional sign. */
  function ParseLiteral(t: string): (r: Result<Literal>)
    ensures r.Ok? ==> ValidLiteral(r.value) && LiteralChars(t) && |t| > 0
    ensures r.Fail? ==> r.fault == NumberFormat
  {
    if |t| > 0 && t[0] == '-' then ParseUnsigned(t[1..], true)
    else if |t| > 0 && t[0] == '+' then ParseUnsigned(t[1..], false)
    else ParseUnsigned(t, false)
  }

  /** Double.parseDouble on finite decimal literals, after String.trim: a
      blank text, or one holding a character no decimal literal uses, is a
      NumberFormatException. */
  function ParseDouble(s: string): (r: Result<real>)
    ensures r.Fail? ==> r.fault == NumberFormat
    ensures |Trim(s)| == 0 ==> r == Fail(NumberFormat)
    ensures r.Ok? ==> LiteralChars(Trim(s))
  {
    var l :- ParseLiteral(Trim(s));
    Ok(LiteralValue(l))
  }

  /** A finite decimal as Python renders a float or an int: a sign, the whole
      part, optional fraction digits and an optional exponent. */
  datatype Decimal = Decimal(negative: bool, whole: nat, fraction: string, exponent: Option<int>)

  predicate ValidDecimal(d: Decimal) {
    AllDigits(d.fraction)
  }

  /** The written exponent, 0 when there is none. */
  function ExponentOf(d: Decimal): int
  {
    if d.exponent.Some? then d.exponent.value else 0
  }

  /** The literal a decimal is written as. */
  function LiteralOf(d: Decimal): (l: Literal)
    requires ValidDecimal(d)
    ensures ValidLiteral(l)
  {
    Literal(d.negative, NatToText(d.whole), d.fraction, ExponentOf(d))
  }

  /** The number a decimal denotes. */
  function DecimalValue(d: Decimal): real
    requires ValidDecimal(d)
  {
    LiteralValue(LiteralOf(d))
  }

  /** Python pads the exponent to at least two digits: 1e-05, 1.5e+16. */
  function ExponentText(e: int): string
  {
    var digits := NatToText(if e < 0 then -e else e);
    (if e < 0 then "-" else "+") + (if |digits| < 2 then "0" + digits else digits)
  }

  function ExponentPart(d: Decimal): string
  {
    if d.exponent.Some? then "e" + ExponentText(d.exponent.value) else ""
  }

  /** The text after the whole part: an optional fraction and exponent. */
  function TailText(d: Decimal): string
  {
    (if |d.fraction| > 0 then "." + d.fraction else "") + ExponentPart(d)
  }

  function RenderDecimal(d: Decimal): (s: string)
    requires ValidDecimal(d)
    ensures |s| > 0 && s[0] > ' ' && s[|s| - 1] > ' '
  {
    (if d.negative then "-" else "") + (NatToText(d.whole) + TailText(d))
  }

  lemma {:induction false} DigitRunPrefix(w: string, rest: string)
    requires AllDigits(w)
    requires |rest| == 0 || !IsDigit(rest[0])
    ensures DigitRun(w + rest) == |w|
    decreases |w|
  {
    if |w| > 0 {
      assert (w + rest)[1..] == w[1..] + rest;
      DigitRunPrefix(w[1..], rest);
    }
  }

  lemma {:induction false} LeadingZeroValue(s: string)
    requires AllDigits(s)
    ensures AllDigits("0" + s) && DigitsValue("0" + s) == DigitsValue(s)
    decreases |s|
  {
    if |s| > 0 {
      assert ("0" + s)[..|s|] == "0" + s[..|s| - 1];
      LeadingZeroValue(s[..|s| - 1]);
    }
  }

  lemma ExponentRoundTrip(e: int)
    ensures ParseExponent(ExponentText(e)) == Ok(e)
  {
    var n: nat := if e < 0 then -e else e;
    var digits := NatToText(n);
    NatToTextValue(n);
    var padded := if |digits| < 2 then "0" + digits else digits;
    if |digits| < 2 {
      LeadingZeroValue(digits);
    }
    assert ExponentText(e)[1..] == padded;
  }

  lemma ExponentPartRoundTrip(d: Decimal, whole: string)
    requires ValidDecimal(d) && AllDigits(whole) && |whole| > 0
    ensures ParseAfterFraction(d.negative, whole, d.fraction, ExponentPart(d))
            == Ok(Literal(d.negative, whole, d.fraction, ExponentOf(d)))
  {
    if d.exponent.Some? {
      var rest := ExponentPart(d);
      ExponentRoundTrip(d.exponent.value);
      assert rest[0] == 'e';
      assert rest[1..] == ExponentText(d.exponent.value);
    } else {
      assert ExponentPart(d) == [];
    }
  }

  lemma FractionSplit(fraction: string, e: string)
    requires |fraction| > 0 && AllDigits(fraction)
    requires |e| == 0 || e[0] == 'e'
    ensures var tail := "." + fraction + e;
      tail[1..][..DigitRun(tail[1..])] == fraction && tail[1 + DigitRun(tail[1..])..] == e
  {
    var tail := "." + fraction + e;
    assert tail[1..] == fraction + e;
    DigitRunPrefix(fraction, e);
    assert (fraction + e)[..|fraction|] == fraction;
    assert tail[1 + |fraction|..] == e;
  }

  lemma TailRoundTrip(d: Decimal, whole: string)
    requires ValidDecimal(d) && AllDigits(whole) && |whole| > 0
    ensures ParseAfterWhole(d.negative, whole, TailText(d))
            == Ok(Literal(d.negative, whole, d.fraction, ExponentOf(d)))
  {
    var e := ExponentPart(d);
    ExponentPartRoundTrip(d, whole);
    if |d.fraction| > 0 {
      assert TailText(d) == "." + d.fraction + e;
      FractionSplit(d.fraction, e);
    } else {
      assert TailText(d) == e;
    }
  }

  lemma UnsignedRoundTrip(d: Decimal)
    requires ValidDecimal(d)
    ensures ParseUnsigned(NatToText(d.whole) + TailText(d), d.negative) == Ok(LiteralOf(d))
  {
    var w := NatToText(d.whole);
    var tail := TailText(d);
    var u := w + tail;
    assert |tail| == 0 || tail[0] == '.' || tail[0] == 'e';
    DigitRunPrefix(w, tail);
    assert u[..|w|] == w;
    assert u[|w|..] == tail;
    TailRoundTrip(d, w);
  }

  /** An optional minus sign before unsigned text sets the literal's sign. */
  lemma SignedLiteral(negative: bool, u: string)
    requires |u| > 0 && IsDigit(u[0])
    ensures ParseLiteral((if negative then "-" else "") + u) == ParseUnsigned(u, negative)
  {
    if negative {
      assert ("-" + u)[1..] == u;
    } else {
      assert "" + u == u;
    }
  }

  /** The rendering of a decimal reads back as the literal it was written
      from: sign, digits and exponent. */
  lemma LiteralRoundTrip(d: Decimal)
    requires ValidDecimal(d)
    ensures ParseLiteral(RenderDecimal(d)) == Ok(LiteralOf(d))
  {
    var u := NatToText(d.whole) + TailText(d);
    assert IsDigit(u[0]) by {
      assert u[0] == NatToText(d.whole)[0];
    }
    UnsignedRoundTrip(d);
    SignedLiteral(d.negative, u);
  }

  /** Parsing the rendering of a finite decimal gives back its value. */
  lemma DecimalRoundTrip(d: Decimal)
    requires ValidDecimal(d)
    ensures ParseDouble(RenderDecimal(d)) == Ok(DecimalValue(d))
  {
    LiteralRoundTrip(d);
    LiteralIsTrimmed(RenderDecimal(d));
  }

  /** A text that reads as a literal has nothing for String.trim to strip. */
  lemma LiteralIsTrimmed(s: string)
    requires ParseLiteral(s).Ok?
    ensures Trim(s) == s
  {
    assert LiteralChars(s);
    TrimIdentity(s);
  }

  /** Decimal text holds only digits, signs, '.' and 'e'. */
  lemma DecimalTextChars(d: Decimal, c: char)
    requires ValidDecimal(d)
    requires c != '-' && c != '+' && c != '.' && c != 'e' && !IsDigit(c)
    ensures c !in RenderDecimal(d)
  {
    var e := ExponentOf(d);
    var digits := NatToText(if e < 0 then -e else e);
    assert c !in digits;
    assert c !in (if |digits| < 2 then "0" + digits else digits);
    assert c !in ExponentPart(d);
    assert c !in d.fraction;
    assert c !in TailText(d);
    assert c !in NatToText(d.whole);
  }
}
