/** The pieces of java.lang.String, Character, Integer and Double that the
    template pipeline and the server helpers rely on, restricted to ASCII. */
module JString {
  import opened Wrappers

  /** System.lineSeparator(), fixed to the Unix separator. */
  const LineSeparator: string := "\n"

  const MinInt: int := -0x8000_0000
  const MaxInt: int := 0x7FFF_FFFF

  /** Character.isWhitespace on ASCII: HT, LF, VT, FF, CR, FS, GS, RS, US, space. */
  predicate IsWhitespace(c: char) {
    9 <= c as int <= 13 || 28 <= c as int <= 32
  }

  /** Character.isLetter on ASCII. */
  predicate IsLetter(c: char) {
    'a' <= c <= 'z' || 'A' <= c <= 'Z'
  }

  /** Character.isDigit on ASCII. */
  predicate IsDigit(c: char) {
    '0' <= c <= '9'
  }

  predicate StartsWith(s: string, p: string) {
    |p| <= |s| && s[..|p|] == p
  }

  predicate EndsWith(s: string, p: string) {
    |p| <= |s| && s[|s| - |p|..] == p
  }

  /** `p` occurs in `s` starting at position `i`. */
  predicate OccursAt(s: string, p: string, i: int) {
    0 <= i && i + |p| <= |s| && s[i..i + |p|] == p
  }

  predicate Contains(s: string, p: string) {
    exists i :: 0 <= i <= |s| && OccursAt(s, p, i)
  }

  // ---------------------------------------------------------------------------
  // String.trim: removes leading and trailing characters <= ' '

  function TrimStart(s: string): (r: string)
    ensures |r| <= |s| && r == s[|s| - |r|..]
    ensures |r| == 0 || r[0] > ' '
  {
    if |s| > 0 && s[0] <= ' ' then TrimStart(s[1..]) else s
  }

  function TrimEnd(s: string): (r: string)
    ensures |r| <= |s| && r == s[..|r|]
    ensures |r| == 0 || r[|r| - 1] > ' '
  {
    if |s| > 0 && s[|s| - 1] <= ' ' then TrimEnd(s[..|s| - 1]) else s
  }

  /** A string that `Trim` leaves alone: empty, or not starting or ending in a control
      character or space. */
  predicate TrimStable(s: string) {
    |s| == 0 || (s[0] > ' ' && s[|s| - 1] > ' ')
  }

  function Trim(s: string): (r: string)
    ensures TrimStable(r)
    ensures TrimStable(s) ==> r == s
    ensures AllBlank(s) ==> r == []
  {
    TrimEnd(TrimStart(s))
  }

  /** Padding made only of characters that `Trim` removes. */
  predicate AllBlank(s: string) {
    forall i :: 0 <= i < |s| ==> s[i] <= ' '
  }

  lemma {:induction false} TrimStartBlank(p: string, w: string)
    requires AllBlank(p) && |w| > 0 && w[0] > ' '
    ensures TrimStart(p + w) == w
    decreases |p|
  {
    if |p| > 0 {
      assert (p + w)[1..] == p[1..] + w;
      TrimStartBlank(p[1..], w);
    } else {
      assert p + w == w;
    }
  }

  lemma {:induction false} TrimEndBlank(w: string, q: string)
    requires AllBlank(q) && |w| > 0 && w[|w| - 1] > ' '
    ensures TrimEnd(w + q) == w
    decreases |q|
  {
    if |q| > 0 {
      assert (w + q)[..|w + q| - 1] == w + q[..|q| - 1];
      TrimEndBlank(w, q[..|q| - 1]);
    } else {
      assert w + q == w;
    }
  }

  /** Trimming removes exactly the blank padding around a trim-stable word. */
  lemma TrimPadded(p: string, w: string, q: string)
    requires AllBlank(p) && AllBlank(q) && TrimStable(w)
    ensures Trim(p + w + q) == w
  {
    if |w| == 0 {
      assert p + w + q == p + q;
      assert AllBlank(p + q);
    } else {
      assert p + w + q == p + (w + q);
      TrimStartBlank(p, w + q);
      TrimEndBlank(w, q);
    }
  }

  // ---------------------------------------------------------------------------
  // String.replace(CharSequence, CharSequence): left-to-right, non-overlapping

  function Replace(s: string, pat: string, rep: string): (r: string)
    requires |pat| > 0
    ensures !Contains(s, pat) ==> r == s
    decreases |s|
  {
    if |s| == 0 then []
    else if StartsWith(s, pat) then
      assert OccursAt(s, pat, 0);
      rep + Replace(s[|pat|..], pat, rep)
    else
      assert forall i :: OccursAt(s[1..], pat, i) ==> OccursAt(s, pat, i + 1) by {
        forall i | OccursAt(s[1..], pat, i) ensures OccursAt(s, pat, i + 1) {
          assert s[1..][i..i + |pat|] == s[i + 1..i + 1 + |pat|];
        }
      }
      [s[0]] + Replace(s[1..], pat, rep)
  }

  /** String.toLowerCase on ASCII letters. */
  function ToLower(s: string): (r: string)
    ensures |r| == |s|
    ensures forall i :: 0 <= i < |s| ==> (r[i] == s[i] || ('A' <= s[i] <= 'Z' && r[i] as int == s[i] as int + 32))
  {
    seq(|s|, i requires 0 <= i < |s| =>
      if 'A' <= s[i] <= 'Z' then (s[i] as int + 32) as char else s[i])
  }

  /** String.indexOf(char): the first position of `c`, or -1. */
  function IndexOf(s: string, c: char): (r: int)
    ensures -1 <= r < |s|
    ensures r == -1 <==> c !in s
    ensures r >= 0 ==> s[r] == c && c !in s[..r]
  {
    if |s| == 0 then -1
    else if s[0] == c then 0
    else
      var k := IndexOf(s[1..], c);
      assert s == [s[0]] + s[1..];
      if k == -1 then -1 else k + 1
  }

  // ---------------------------------------------------------------------------
  // String.split on a single-character separator

  /** Every field between separators, trailing empty fields included. */
  function Fields(s: string, sep: char): (r: seq<string>)
    ensures |r| >= 1
    ensures forall i :: 0 <= i < |r| ==> sep !in r[i]
    ensures Join(r, sep) == s
  {
    if |s| == 0 then [""]
    else
      var rest := Fields(s[1..], sep);
      if s[0] == sep then
        assert s == [sep] + s[1..];
        [""] + rest
      else
        assert s == [s[0]] + s[1..];
        [[s[0]] + rest[0]] + rest[1..]
  }

  /** The fields of `fs` separated by `sep`. */
  function Join(fs: seq<string>, sep: char): string
    requires |fs| >= 1
  {
    if |fs| == 1 then fs[0] else fs[0] + [sep] + Join(fs[1..], sep)
  }

  function DropTrailingEmpty(fs: seq<string>): (r: seq<string>)
    ensures |r| <= |fs| && r == fs[..|r|]
    ensures |r| == 0 || r[|r| - 1] != ""
    ensures forall i :: |r| <= i < |fs| ==> fs[i] == ""
  {
    if |fs| > 0 && fs[|fs| - 1] == "" then DropTrailingEmpty(fs[..|fs| - 1]) else fs
  }

  /** String.split(String.valueOf(sep)): the fields, with trailing empty strings
      removed; an input without the separator comes back whole. */
  function Split(s: string, sep: char): (r: seq<string>)
    ensures sep !in s ==> r == [s]
    ensures forall i :: 0 <= i < |r| ==> sep !in r[i]
  {
    if sep !in s then [s] else DropTrailingEmpty(Fields(s, sep))
  }

  /** A field free of the separator, then the separator, comes off the front
      of the fields as one whole field. */
  lemma {:induction false} FieldsCons(w: string, sep: char, t: string)
    requires sep !in w
    ensures Fields(w + [sep] + t, sep) == [w] + Fields(t, sep)
    decreases |w|
  {
    var s := w + [sep] + t;
    if |w| == 0 {
      assert s[1..] == t;
    } else {
      assert s[1..] == w[1..] + [sep] + t;
      FieldsCons(w[1..], sep, t);
      assert [w[0]] + w[1..] == w;
    }
  }

  /** Text free of the separator is a single field. */
  lemma {:induction false} FieldsSingle(w: string, sep: char)
    requires sep !in w
    ensures Fields(w, sep) == [w]
    decreases |w|
  {
    if |w| > 0 {
      FieldsSingle(w[1..], sep);
      assert [w[0]] + w[1..] == w;
    }
  }

  /** Splitting what was joined gives the fields back when none holds the
      separator. */
  lemma {:induction false} FieldsJoin(fs: seq<string>, sep: char)
    requires |fs| >= 1
    requires forall i :: 0 <= i < |fs| ==> sep !in fs[i]
    ensures Fields(Join(fs, sep), sep) == fs
    decreases |fs|
  {
    if |fs| == 1 {
      FieldsSingle(fs[0], sep);
    } else {
      FieldsJoin(fs[1..], sep);
      FieldsCons(fs[0], sep, Join(fs[1..], sep));
      assert [fs[0]] + fs[1..] == fs;
    }
  }

  /** String.split undoes a join whose last field is not empty. */
  lemma SplitJoin(fs: seq<string>, sep: char)
    requires |fs| >= 1 && fs[|fs| - 1] != ""
    requires forall i :: 0 <= i < |fs| ==> sep !in fs[i]
    ensures Split(Join(fs, sep), sep) == fs
  {
    FieldsJoin(fs, sep);
    if |fs| > 1 {
      JoinHolds(fs, sep);
    }
  }

  /** A character absent from the text is absent from every field. */
  lemma {:induction false} FieldsAvoid(s: string, sep: char, c: char)
    requires c !in s
    ensures forall i :: 0 <= i < |Fields(s, sep)| ==> c !in Fields(s, sep)[i]
    decreases |s|
  {
    if |s| > 0 {
      assert s[0] in s;
      assert forall x :: x in s[1..] ==> x in s;
      FieldsAvoid(s[1..], sep, c);
    }
  }

  lemma SplitAvoid(s: string, sep: char, c: char)
    requires c !in s
    ensures forall i :: 0 <= i < |Split(s, sep)| ==> c !in Split(s, sep)[i]
  {
    if sep in s {
      FieldsAvoid(s, sep, c);
      var fs := Fields(s, sep);
      var r := DropTrailingEmpty(fs);
      assert forall i :: 0 <= i < |r| ==> r[i] == fs[i];
    }
  }

  /** Joining two or more fields puts the separator in. */
  lemma JoinHolds(fs: seq<string>, sep: char)
    requires |fs| >= 2
    ensures sep in Join(fs, sep)
  {
    assert Join(fs, sep) == fs[0] + [sep] + Join(fs[1..], sep);
    assert Join(fs, sep)[|fs[0]|] == sep;
  }

  // ---------------------------------------------------------------------------
  // Integer.toString / Integer.parseInt

  function DigitChar(d: nat): char
    requires d < 10
  {
    ('0' as int + d) as char
  }

  predicate AllDigits(s: string) {
    forall i :: 0 <= i < |s| ==> IsDigit(s[i])
  }

  function NatToString(n: nat): (r: string)
    ensures |r| > 0 && AllDigits(r)
    ensures r[0] == '0' ==> n == 0
  {
    if n < 10 then [DigitChar(n)] else NatToString(n / 10) + [DigitChar(n % 10)]
  }

  /** Integer.toString: the canonical decimal form. */
  function IntToString(i: int): (r: string)
    ensures |r| > 0
  {
    if i < 0 then "-" + NatToString(-i) else NatToString(i)
  }

  /** The value of a string of decimal digits. */
  function DigitsValue(s: string): nat
    requires AllDigits(s)
  {
    if |s| == 0 then 0 else DigitsValue(s[..|s| - 1]) * 10 + (s[|s| - 1] as int - '0' as int)
  }

  lemma {:induction false} NatToStringValue(n: nat)
    ensures DigitsValue(NatToString(n)) == n
  {
    if n >= 10 {
      NatToStringValue(n / 10);
      var s := NatToString(n);
      assert s[..|s| - 1] == NatToString(n / 10);
    }
  }

  /** An optional sign and at least one digit: the shape of Integer.parseInt's
      input and of a double's exponent. */
  function SignedDigits(s: string): (r: Option<int>)
    ensures r.Some? ==> |s| > 0 && (IsDigit(s[0]) || s[0] == '-' || s[0] == '+')
  {
    if |s| == 0 then None
    else
      var body := if s[0] == '-' || s[0] == '+' then s[1..] else s;
      if |body| == 0 || !AllDigits(body) then None
      else Some(if s[0] == '-' then 0 - DigitsValue(body) else DigitsValue(body))
  }

  /** Integer.parseInt: an optional sign and at least one digit, in the int range. */
  function ParseInt32(s: string): (r: Option<int>)
    ensures r.Some? ==> MinInt <= r.value <= MaxInt
    ensures r.Some? ==> |s| > 0 && (IsDigit(s[0]) || s[0] == '-' || s[0] == '+')
    ensures r.Some? <==> SignedDigits(s).Some? && MinInt <= SignedDigits(s).value <= MaxInt
  {
    match SignedDigits(s)
    case Some(v) => if MinInt <= v <= MaxInt then Some(v) else None
    case None => None
  }

  /** Printing an int and parsing it back gives the same int. */
  lemma IntRoundTrip(i: int)
    requires MinInt <= i <= MaxInt
    ensures ParseInt32(IntToString(i)) == Some(i)
  {
    if i < 0 {
      var n: nat := -i;
      NatToStringValue(n);
      NegatedDigitsInt(NatToString(n), n, i);
    } else {
      NatToStringValue(i);
      DigitsInt(NatToString(i), i);
    }
  }

  lemma DigitsInt(d: string, n: nat)
    requires |d| > 0 && AllDigits(d) && DigitsValue(d) == n <= MaxInt
    ensures ParseInt32(d) == Some(n)
  {
    assert IsDigit(d[0]);
  }

  lemma NegatedDigitsInt(d: string, n: nat, i: int)
    requires |d| > 0 && AllDigits(d) && DigitsValue(d) == n && n == -i && MinInt <= i
    ensures ParseInt32("-" + d) == Some(i)
  {
    assert ("-" + d)[1..] == d;
  }

  // ---------------------------------------------------------------------------
  // Double.parseDouble: decimal and hexadecimal notation, NaN and Infinity

  /** The value of the digits after a decimal point: "25" is 0.25. */
  function FractionValue(s: string): (r: real)
    requires AllDigits(s)
    ensures 0.0 <= r <= 1.0
  {
    if |s| == 0 then 0.0 else ((s[0] as int - '0' as int) as real + FractionValue(s[1..])) / 10.0
  }

  /** The value of an unsigned decimal: digits, optionally a point and more digits,
      with at least one digit in all. */
  function UnsignedDecimal(s: string): Option<real> {
    var k := IndexOf(s, '.');
    if k == -1 then
      if |s| > 0 && AllDigits(s) then Some(DigitsValue(s) as real) else None
    else
      var whole := s[..k];
      var frac := s[k + 1..];
      if AllDigits(whole) && AllDigits(frac) && |whole| + |frac| > 0 then
        Some(DigitsValue(whole) as real + FractionValue(frac))
      else None
  }

  /** `b` raised to the power `e`. */
  function Power(b: real, e: int): (r: real)
    requires b > 0.0
    ensures r > 0.0
    decreases if e < 0 then -e else e
  {
    if e == 0 then 1.0
    else if e > 0 then b * Power(b, e - 1)
    else Power(b, e + 1) / b
  }

  /** `m` times `b` to the power `e`: a significand and its exponent. */
  function Scaled(m: real, b: real, e: int): real
    requires b > 0.0
  {
    m * Power(b, e)
  }

  /** The type suffixes a double may end in. */
  predicate IsTypeSuffix(c: char) {
    c == 'f' || c == 'F' || c == 'd' || c == 'D'
  }

  /** The text without its type suffix, if it has one. */
  function WithoutSuffix(s: string): (r: string)
    ensures r == s || (|s| > 0 && IsTypeSuffix(s[|s| - 1]) && r == s[..|s| - 1])
  {
    if |s| > 0 && IsTypeSuffix(s[|s| - 1]) then s[..|s| - 1] else s
  }

  /** The first position holding `a` or `b`, or -1. */
  function IndexOfEither(s: string, a: char, b: char): (r: int)
    ensures -1 <= r < |s|
    ensures r == -1 <==> a !in s && b !in s
    ensures r >= 0 ==> (s[r] == a || s[r] == b) && a !in s[..r] && b !in s[..r]
  {
    if |s| == 0 then -1
    else if s[0] == a || s[0] == b then 0
    else
      var k := IndexOfEither(s[1..], a, b);
      assert s == [s[0]] + s[1..];
      if k == -1 then -1 else k + 1
  }

  /** Decimal notation: a significand, then optionally `e` or `E` and a
      decimal exponent. */
  function DecimalDouble(s: string): Option<real> {
    var k := IndexOfEither(s, 'e', 'E');
    if k == -1 then UnsignedDecimal(s)
    else
      var m := UnsignedDecimal(s[..k]);
      var e := SignedDigits(s[k + 1..]);
      if m.Some? && e.Some? then Some(Scaled(m.value, 10.0, e.value)) else None
  }

  predicate IsHexDigit(c: char) {
    IsDigit(c) || 'a' <= c <= 'f' || 'A' <= c <= 'F'
  }

  function HexDigitValue(c: char): (r: nat)
    requires IsHexDigit(c)
    ensures r < 16
  {
    if IsDigit(c) then c as int - '0' as int
    else if 'a' <= c <= 'f' then c as int - 'a' as int + 10
    else c as int - 'A' as int + 10
  }

  predicate AllHexDigits(s: string) {
    forall i :: 0 <= i < |s| ==> IsHexDigit(s[i])
  }

  function HexDigitsValue(s: string): nat
    requires AllHexDigits(s)
  {
    if |s| == 0 then 0 else HexDigitsValue(s[..|s| - 1]) * 16 + HexDigitValue(s[|s| - 1])
  }

  /** The value of hexadecimal digits after a point: "8" is 0.5. */
  function HexFractionValue(s: string): (r: real)
    requires AllHexDigits(s)
    ensures 0.0 <= r <= 1.0
  {
    if |s| == 0 then 0.0 else (HexDigitValue(s[0]) as real + HexFractionValue(s[1..])) / 16.0
  }

  /** Hexadecimal digits, optionally a point and more digits, with at least
      one digit in all. */
  function HexSignificand(s: string): Option<real> {
    var k := IndexOf(s, '.');
    if k == -1 then
      if |s| > 0 && AllHexDigits(s) then Some(HexDigitsValue(s) as real) else None
    else
      var whole := s[..k];
      var frac := s[k + 1..];
      if AllHexDigits(whole) && AllHexDigits(frac) && |whole| + |frac| > 0 then
        Some(HexDigitsValue(whole) as real + HexFractionValue(frac))
      else None
  }

  /** Hexadecimal notation after `0x`: a significand, then `p` or `P` and a
      binary exponent, which is not optional, then an optional type suffix. */
  function HexDouble(h: string): Option<real> {
    var k := IndexOfEither(h, 'p', 'P');
    if k == -1 then None
    else
      var m := HexSignificand(h[..k]);
      var e := SignedDigits(WithoutSuffix(h[k + 1..]));
      if m.Some? && e.Some? then Some(Scaled(m.value, 2.0, e.value)) else None
  }

  /** An unsigned finite double: hexadecimal after `0x` or `0X`, otherwise
      decimal with an optional type suffix. */
  function UnsignedDouble(u: string): Option<real> {
    if StartsWith(u, "0x") || StartsWith(u, "0X") then HexDouble(u[2..])
    else DecimalDouble(WithoutSuffix(u))
  }

  /** A finite double with an optional leading sign. */
  function SignedDouble(t: string): Option<real> {
    if |t| == 0 then None
    else if t[0] == '-' then
      match UnsignedDouble(t[1..])
      case Some(v) => Some(-v)
      case None => None
    else if t[0] == '+' then UnsignedDouble(t[1..])
    else UnsignedDouble(t)
  }

  /** Double.parseDouble on the input after String.trim, for the finite
      values; NaN and the infinities have no real value. */
  function ParseDouble(s: string): (r: Option<real>)
    ensures r.Some? ==> |Trim(s)| > 0
  {
    SignedDouble(Trim(s))
  }

  /** The texts Double.parseDouble reads as NaN or as an infinity. */
  predicate NonFiniteDouble(s: string) {
    var t := Trim(s);
    t == "NaN" || t == "+NaN" || t == "-NaN" || t == "Infinity" || t == "+Infinity" || t == "-Infinity"
  }

  /** Double.parseDouble returns rather than throwing NumberFormatException. */
  predicate ParsesAsDouble(s: string) {
    ParseDouble(s).Some? || NonFiniteDouble(s)
  }

  /** The characters of an unsigned decimal are digits and one point. */
  lemma DecimalChars(d: string)
    requires UnsignedDecimal(d).Some?
    ensures forall i :: 0 <= i < |d| ==> IsDigit(d[i]) || d[i] == '.'
  {
    var k := IndexOf(d, '.');
    if k != -1 {
      forall i | 0 <= i < |d|
        ensures IsDigit(d[i]) || d[i] == '.'
      {
        if i < k {
          assert d[i] == d[..k][i];
        } else if i > k {
          assert d[i] == d[k + 1..][i - k - 1];
        }
      }
    }
  }

  /** An unsigned decimal is read as itself: no hexadecimal prefix, no type
      suffix and no exponent can be found in it. */
  lemma PlainDouble(d: string)
    requires |d| > 0 && UnsignedDecimal(d).Some?
    ensures !StartsWith(d, "0x") && !StartsWith(d, "0X") && WithoutSuffix(d) == d
    ensures UnsignedDouble(d) == UnsignedDecimal(d)
  {
    DecimalChars(d);
    if |d| >= 2 {
      assert d[..2][1] == d[1];
      assert !StartsWith(d, "0x") && !StartsWith(d, "0X");
    }
    assert !IsTypeSuffix(d[|d| - 1]);
    assert WithoutSuffix(d) == d;
    assert 'e' !in d && 'E' !in d;
  }

  lemma NatToStringNoPoint(n: nat)
    ensures '.' !in NatToString(n)
  {
    var s := NatToString(n);
    assert forall i :: 0 <= i < |s| ==> IsDigit(s[i]);
  }

  lemma NatToStringTrimStable(n: nat)
    ensures TrimStable(NatToString(n))
  {
    var s := NatToString(n);
    assert IsDigit(s[0]) && IsDigit(s[|s| - 1]);
  }

  lemma UnsignedNat(n: nat)
    ensures UnsignedDecimal(NatToString(n)) == Some(n as real)
  {
    NatToStringNoPoint(n);
    NatToStringValue(n);
  }

  /** The decimal form of an int parses as a double of the same value. */
  lemma IntParsesAsDouble(i: int)
    ensures ParseDouble(IntToString(i)) == Some(i as real)
  {
    if i < 0 {
      NegativeParses(i);
    } else {
      NonNegativeParses(i);
    }
  }

  /** Trimming leaves a trim-stable string alone, so it parses as a signed decimal. */
  lemma StableParse(t: string)
    requires TrimStable(t)
    ensures ParseDouble(t) == SignedDouble(t)
  {
  }

  lemma {:induction false} NegatedDecimal(d: string, v: real)
    requires UnsignedDecimal(d) == Some(v)
    ensures SignedDouble("-" + d) == Some(-v)
  {
    assert ("-" + d)[1..] == d;
    PlainDouble(d);
  }

  /** A trim-stable digit string parses as its unsigned decimal value. */
  lemma DigitsParse(d: string, v: real)
    requires |d| > 0 && IsDigit(d[0]) && TrimStable(d) && UnsignedDecimal(d) == Some(v)
    ensures ParseDouble(d) == Some(v)
  {
    StableParse(d);
    PlainDouble(d);
  }

  /** The decimal form of a natural number is a trim-stable digit string with that value. */
  lemma NatToStringDecimal(n: nat)
    ensures var d := NatToString(n);
      |d| > 0 && IsDigit(d[0]) && TrimStable(d) && UnsignedDecimal(d) == Some(n as real)
  {
    NatToStringTrimStable(n);
    UnsignedNat(n);
  }

  lemma {:induction false} NonNegativeParses(i: int)
    requires i >= 0
    ensures ParseDouble(IntToString(i)) == Some(i as real)
  {
    NatToStringDecimal(i);
    DigitsParse(NatToString(i), i as real);
  }

  lemma {:induction false} NegativeParses(i: int)
    requires i < 0
    ensures ParseDouble(IntToString(i)) == Some(i as real)
  {
    NatToStringDecimal(-i);
    NegatedDigitsParse(IntToString(i), NatToString(-i), -i, i);
  }

  lemma {:induction false} NegatedDigitsParse(s: string, d: string, n: nat, i: int)
    requires |d| > 0 && TrimStable(d) && UnsignedDecimal(d) == Some(n as real)
    requires n == -i && s == "-" + d
    ensures ParseDouble(s) == Some(i as real)
  {
    assert s[|s| - 1] == d[|d| - 1];
    StableParse(s);
    NegatedDecimal(d, n as real);
  }

  /** Integer.toString read back as a signed digit string, without a range
      limit. */
  lemma SignedDigitsOfInt(e: int)
    ensures SignedDigits(IntToString(e)) == Some(e)
  {
    if e < 0 {
      var n: nat := -e;
      var d := NatToString(n);
      NatToStringValue(n);
      NegatedDigits(d);
      assert IntToString(e) == "-" + d;
    } else {
      var d := NatToString(e);
      NatToStringValue(e);
      assert d[0] != '-' && d[0] != '+' by {
        assert IsDigit(d[0]);
      }
    }
  }

  lemma NegatedDigits(d: string)
    requires |d| > 0 && AllDigits(d)
    ensures SignedDigits("-" + d) == Some(0 - DigitsValue(d))
  {
    assert ("-" + d)[1..] == d;
  }

  /** A decimal exponent scales the significand: `d` followed by `e` and the
      decimal form of `x` reads as the value of `d` times ten to the `x`. */
  lemma ExponentForm(d: string, x: int)
    requires |d| > 0 && IsDigit(d[0]) && UnsignedDecimal(d).Some?
    ensures ParseDouble(d + "e" + IntToString(x)) == Some(Scaled(UnsignedDecimal(d).value, 10.0, x))
  {
    var w := IntToString(x);
    var s := d + "e" + w;
    DecimalChars(d);
    IntToStringEnds(x);
    ExponentLed(d, w);
    SignedDigitsOfInt(x);
    ExponentSplit(d, w, UnsignedDecimal(d).value, x);
  }

  /** Decimal notation with an exponent parses as its two parts. */
  lemma ExponentSplit(d: string, w: string, m: real, e: int)
    requires 'e' !in d && 'E' !in d
    requires UnsignedDecimal(d) == Some(m) && SignedDigits(w) == Some(e)
    ensures DecimalDouble(d + "e" + w) == Some(Scaled(m, 10.0, e))
  {
    var s := d + "e" + w;
    FirstMark(d, w);
    assert s[..|d|] == d;
    assert s[|d| + 1..] == w;
  }

  /** A digit-led significand, the mark and a digit-ended exponent form a
      text read in decimal notation as it stands. */
  lemma ExponentLed(d: string, w: string)
    requires |d| > 0 && IsDigit(d[0]) && |w| > 0 && IsDigit(w[|w| - 1])
    requires 'x' !in d && 'X' !in d
    ensures ParseDouble(d + "e" + w) == DecimalDouble(d + "e" + w)
  {
    var s := d + "e" + w;
    assert s[0] == d[0] && s[|s| - 1] == w[|w| - 1];
    StableParse(s);
    assert s[1] == (if |d| > 1 then d[1] else 'e');
    DigitLed(s);
  }

  /** Integer.toString ends in a digit. */
  lemma IntToStringEnds(x: int)
    ensures var w := IntToString(x); IsDigit(w[|w| - 1])
  {
    var n: nat := if x < 0 then -x else x;
    var d := NatToString(n);
    if x < 0 {
      assert IntToString(x)[|IntToString(x)| - 1] == d[|d| - 1];
    }
  }

  /** A trim-stable text that starts with a digit and ends in a digit is read
      in decimal notation as it stands. */
  lemma DigitLed(s: string)
    requires |s| >= 2 && IsDigit(s[0]) && IsDigit(s[|s| - 1])
    requires s[1] != 'x' && s[1] != 'X'
    ensures SignedDouble(s) == DecimalDouble(s)
  {
    NoHexPrefix(s);
    assert !IsTypeSuffix(s[|s| - 1]);
    assert WithoutSuffix(s) == s;
    assert SignedDouble(s) == UnsignedDouble(s);
  }

  /** A text whose second character is not `x` or `X` has no hexadecimal prefix. */
  lemma NoHexPrefix(s: string)
    requires |s| >= 2 && s[1] != 'x' && s[1] != 'X'
    ensures !StartsWith(s, "0x") && !StartsWith(s, "0X")
  {
    assert s[..2][1] == s[1];
  }

  /** The exponent mark after a significand free of marks is the first one. */
  lemma FirstMark(d: string, w: string)
    requires 'e' !in d && 'E' !in d
    ensures IndexOfEither(d + "e" + w, 'e', 'E') == |d|
  {
    var s := d + "e" + w;
    assert s[|d|] == 'e';
  }

  /** A type suffix after a decimal changes nothing. */
  lemma SuffixIgnored(d: string, c: char)
    requires |d| > 0 && IsDigit(d[0]) && UnsignedDecimal(d).Some? && IsTypeSuffix(c)
    ensures ParseDouble(d + [c]) == Some(UnsignedDecimal(d).value)
  {
    var s := d + [c];
    DecimalChars(d);
    assert TrimStable(s);
    assert s[1] == (if |d| >= 2 then d[1] else c);
    NoHexPrefix(s);
    assert WithoutSuffix(s) == d;
    assert 'e' !in d && 'E' !in d;
    assert SignedDouble(s) == UnsignedDouble(s);
  }

  function FracDigits(f: real, k: nat): (r: string)
    requires 0.0 <= f < 1.0
    ensures |r| == k && AllDigits(r)
    decreases k
  {
    if k == 0 then []
    else
      var d := (f * 10.0).Floor;
      assert 0 <= d < 10;
      [DigitChar(d)] + FracDigits(f * 10.0 - d as real, k - 1)
  }

  function DropTrailingZeros(s: string): (r: string)
    requires |s| > 0
    ensures 0 < |r| <= |s| && r == s[..|r|]
  {
    if |s| > 1 && s[|s| - 1] == '0' then DropTrailingZeros(s[..|s| - 1]) else s
  }

  predicate IsWhole(r: real) {
    r == r.Floor as real
  }

  /** Double.toString, simplified: a whole value prints as `n.0`; any other value
      prints its integer part, a point and at most 16 fraction digits. */
  function FormatDouble(r: real): (s: string)
    ensures '.' in s
    decreases if r < 0.0 then 1 else 0
  {
    if IsWhole(r) then IntToString(r.Floor) + ".0"
    else if r < 0.0 then
      var p := FormatDouble(-r);
      assert p == p[..0] + p;
      "-" + p
    else
      var n: nat := r.Floor;
      var t := NatToString(n) + ".";
      assert t[|t| - 1] == '.';
      t + DropTrailingZeros(FracDigits(r - n as real, 16))
  }
}
