/** Character and string helpers shared by the Python and JavaScript models. */
module Text {
  import opened Wrappers
  import opened Numeric

  /** Whose notion of whitespace a trim or a split follows. */
  datatype Runtime = Python | JavaScript

  /**
   * Python's `str.isspace()`, which `str.strip()` and `float()` remove, and
   * JavaScript's WhiteSpace and LineTerminator, which `trim()`, `Number()`
   * and the regular expression class `\s` use. Both hold the ASCII controls
   * 9 to 13, the space and the Unicode space separators and line
   * separators; Python adds the separators 0x1C to 0x1F and NEL (0x85),
   * JavaScript adds the byte order mark (0xFEFF).
   */
  predicate IsWhitespace(rt: Runtime, c: char) {
    var k := c as int;
    || 9 <= k <= 13 || k == 0x20 || k == 0xA0 || k == 0x1680 || 0x2000 <= k <= 0x200A
    || k == 0x2028 || k == 0x2029 || k == 0x202F || k == 0x205F || k == 0x3000
    || (rt == Python && (0x1C <= k <= 0x1F || k == 0x85))
    || (rt == JavaScript && k == 0xFEFF)
  }

  function TrimStart(rt: Runtime, s: string): (r: string)
    ensures |r| <= |s| && r == s[|s| - |r|..]
    ensures |r| > 0 ==> !IsWhitespace(rt, r[0])
    ensures forall i :: 0 <= i < |s| - |r| ==> IsWhitespace(rt, s[i])
  {
    if |s| > 0 && IsWhitespace(rt, s[0]) then TrimStart(rt, s[1..]) else s
  }

  function TrimEnd(rt: Runtime, s: string): (r: string)
    ensures |r| <= |s| && r == s[..|r|]
    ensures |r| > 0 ==> !IsWhitespace(rt, r[|r| - 1])
    ensures forall i :: |r| <= i < |s| ==> IsWhitespace(rt, s[i])
  {
    if |s| > 0 && IsWhitespace(rt, s[|s| - 1]) then TrimEnd(rt, s[..|s| - 1]) else s
  }

  /** `s.strip()` / `s.trim()`: whitespace removed at both ends. */
  function Strip(rt: Runtime, s: string): (r: string)
    ensures |r| <= |s|
    ensures |r| > 0 ==> !IsWhitespace(rt, r[0]) && !IsWhitespace(rt, r[|r| - 1])
  {
    TrimEnd(rt, TrimStart(rt, s))
  }

  lemma StripNoEdges(rt: Runtime, s: string)
    requires |s| > 0 ==> !IsWhitespace(rt, s[0]) && !IsWhitespace(rt, s[|s| - 1])
    ensures Strip(rt, s) == s
  {
  }

  /** Text made only of whitespace strips to nothing. */
  lemma StripBlank(rt: Runtime, w: string)
    requires forall i :: 0 <= i < |w| ==> IsWhitespace(rt, w[i])
    ensures Strip(rt, w) == ""
  {
  }

  /** Whitespace around text whose ends are not whitespace is what a strip removes. */
  lemma StripPadded(rt: Runtime, pre: string, t: string, post: string)
    requires forall i :: 0 <= i < |pre| ==> IsWhitespace(rt, pre[i])
    requires forall i :: 0 <= i < |post| ==> IsWhitespace(rt, post[i])
    requires |t| > 0 && !IsWhitespace(rt, t[0]) && !IsWhitespace(rt, t[|t| - 1])
    ensures Strip(rt, pre + t + post) == t
  {
    TrimStartPadded(rt, pre, t + post);
    assert pre + t + post == pre + (t + post);
    TrimEndPadded(rt, t, post);
  }

  lemma {:induction false} TrimStartPadded(rt: Runtime, pre: string, x: string)
    requires forall i :: 0 <= i < |pre| ==> IsWhitespace(rt, pre[i])
    requires |x| > 0 && !IsWhitespace(rt, x[0])
    ensures TrimStart(rt, pre + x) == x
  {
    if |pre| == 0 {
      assert pre + x == x;
    } else {
      assert (pre + x)[1..] == pre[1..] + x;
      TrimStartPadded(rt, pre[1..], x);
    }
  }

  lemma {:induction false} TrimEndPadded(rt: Runtime, x: string, post: string)
    requires forall i :: 0 <= i < |post| ==> IsWhitespace(rt, post[i])
    requires |x| > 0 && !IsWhitespace(rt, x[|x| - 1])
    ensures TrimEnd(rt, x + post) == x
  {
    if |post| == 0 {
      assert x + post == x;
    } else {
      var front := post[..|post| - 1];
      assert (x + post)[..|x + post| - 1] == x + front;
      TrimEndPadded(rt, x, front);
    }
  }

  /** Every character of `s` satisfies no whitespace test. */
  predicate NoWhitespace(rt: Runtime, s: string) {
    forall i :: 0 <= i < |s| ==> !IsWhitespace(rt, s[i])
  }

  /** `s` without the run of `c` at its end: `s.replace(/c+$/, '')`. */
  function TrimTrailing(s: string, c: char): (r: string)
    ensures |r| <= |s| && r == s[..|r|]
    ensures |r| > 0 ==> r[|r| - 1] != c
    ensures forall i :: |r| <= i < |s| ==> s[i] == c
  {
    if |s| > 0 && s[|s| - 1] == c then TrimTrailing(s[..|s| - 1], c) else s
  }

  /** `s.replace(c, '')` for a single character `c`. */
  function RemoveChar(s: string, c: char): (r: string)
    ensures |r| <= |s|
  {
    if |s| == 0 then ""
    else (if s[0] == c then "" else [s[0]]) + RemoveChar(s[1..], c)
  }

  /** What is left holds no `c`. */
  lemma {:induction false} RemoveCharRemoves(s: string, c: char)
    ensures forall i :: 0 <= i < |RemoveChar(s, c)| ==> RemoveChar(s, c)[i] != c
  {
    if |s| > 0 {
      RemoveCharRemoves(s[1..], c);
      var head := if s[0] == c then "" else [s[0]];
      var r := RemoveChar(s, c);
      forall i | 0 <= i < |r| ensures r[i] != c {
        if i >= |head| {
          assert r[i] == RemoveChar(s[1..], c)[i - |head|];
        }
      }
    }
  }

  /** Text without `c` is left as it is. */
  lemma {:induction false} RemoveCharAbsent(s: string, c: char)
    requires forall i :: 0 <= i < |s| ==> s[i] != c
    ensures RemoveChar(s, c) == s
  {
    if |s| > 0 {
      assert s[0] != c;
      RemoveCharAbsent(s[1..], c);
      assert [s[0]] + s[1..] == s;
    }
  }

  lemma {:induction false} RemoveCharAppend(a: string, b: string, c: char)
    ensures RemoveChar(a + b, c) == RemoveChar(a, c) + RemoveChar(b, c)
  {
    if |a| > 0 {
      assert (a + b)[1..] == a[1..] + b;
      RemoveCharAppend(a[1..], b, c);
    } else {
      assert a + b == b;
    }
  }

  /** Removing `c` from `mid` between two `c`s, `mid` holding none, leaves `mid`. */
  lemma RemoveAround(mid: string, c: char)
    requires forall i :: 0 <= i < |mid| ==> mid[i] != c
    ensures RemoveChar([c] + mid + [c], c) == mid
  {
    RemoveCharAppend([c] + mid, [c], c);
    RemoveCharAppend([c], mid, c);
    RemoveCharAbsent(mid, c);
    assert RemoveChar([c], c) == "";
  }

  /** Removing twice is removing once. */
  lemma RemoveCharIdempotent(s: string, c: char)
    ensures RemoveChar(RemoveChar(s, c), c) == RemoveChar(s, c)
  {
    RemoveCharRemoves(s, c);
    RemoveCharAbsent(RemoveChar(s, c), c);
  }

  /** Removing a character keeps text free of whitespace. */
  lemma {:induction false} RemoveCharNoWhitespace(rt: Runtime, s: string, c: char)
    requires NoWhitespace(rt, s)
    ensures NoWhitespace(rt, RemoveChar(s, c))
  {
    if |s| > 0 {
      assert NoWhitespace(rt, s[1..]) by {
        forall i | 0 <= i < |s| - 1 ensures !IsWhitespace(rt, s[1..][i]) {
          assert s[1..][i] == s[i + 1];
        }
      }
      RemoveCharNoWhitespace(rt, s[1..], c);
      var head := if s[0] == c then "" else [s[0]];
      var r := RemoveChar(s, c);
      forall i | 0 <= i < |r| ensures !IsWhitespace(rt, r[i]) {
        if i >= |head| {
          assert r[i] == RemoveChar(s[1..], c)[i - |head|];
        }
      }
    }
  }

  /** Trimming keeps every character that is not whitespace. */
  lemma StripKeeps(rt: Runtime, s: string)
    ensures forall i :: 0 <= i < |s| && !IsWhitespace(rt, s[i]) ==> s[i] in Strip(rt, s)
  {
    forall i | 0 <= i < |s| && !IsWhitespace(rt, s[i]) ensures s[i] in Strip(rt, s) {
      StripKeepsAt(rt, s, i);
    }
  }

  /** The character at `i`, not whitespace, survives both trims at `i` less the leading run. */
  lemma StripKeepsAt(rt: Runtime, s: string, i: int)
    requires 0 <= i < |s| && !IsWhitespace(rt, s[i])
    ensures s[i] in Strip(rt, s)
  {
    var u := TrimStart(rt, s);
    var j := i - (|s| - |u|);
    assert 0 <= j && u[j] == s[i];
    var r := TrimEnd(rt, u);
    assert j < |r| && r[j] == u[j];
  }

  /** Trimming invents no character. */
  lemma StripFrom(rt: Runtime, s: string)
    ensures forall j :: 0 <= j < |Strip(rt, s)| ==> Strip(rt, s)[j] in s
  {
    var u := TrimStart(rt, s);
    var off := |s| - |u|;
    var r := TrimEnd(rt, u);
    assert r == Strip(rt, s);
    forall j | 0 <= j < |r| ensures r[j] in s {
      assert r[j] == u[j];
      assert u[j] == s[j + off];
    }
  }

  /** A digit in `y`, every character of which comes from `x`, is a digit in `x`. */
  lemma DigitFrom(x: string, y: string)
    requires forall j :: 0 <= j < |y| ==> y[j] in x
    requires exists j :: 0 <= j < |y| && IsDigit(y[j])
    ensures exists i :: 0 <= i < |x| && IsDigit(x[i])
  {
    var j :| 0 <= j < |y| && IsDigit(y[j]);
    var i :| 0 <= i < |x| && x[i] == y[j];
  }

  /** Removing `c` keeps every other character and invents none. */
  lemma {:induction false} RemoveCharKeeps(s: string, c: char)
    ensures forall i :: 0 <= i < |s| && s[i] != c ==> s[i] in RemoveChar(s, c)
    ensures forall j :: 0 <= j < |RemoveChar(s, c)| ==> RemoveChar(s, c)[j] in s
  {
    if |s| > 0 {
      RemoveCharKeeps(s[1..], c);
      var head := if s[0] == c then "" else [s[0]];
      var r := RemoveChar(s, c);
      assert r == head + RemoveChar(s[1..], c);
      forall i | 0 <= i < |s| && s[i] != c ensures s[i] in r {
        if i > 0 {
          assert s[i] == s[1..][i - 1];
        }
      }
      forall j | 0 <= j < |r| ensures r[j] in s {
        if j >= |head| {
          assert r[j] == RemoveChar(s[1..], c)[j - |head|];
        }
      }
    }
  }

  /** Index of the first `c` in `s`, or `|s|` when there is none. */
  function IndexOf(s: string, c: char): (k: nat)
    ensures k <= |s|
    ensures k < |s| ==> s[k] == c
    ensures forall i :: 0 <= i < k ==> s[i] != c
  {
    if |s| == 0 then 0 else if s[0] == c then 0 else 1 + IndexOf(s[1..], c)
  }

  predicate IsDigit(c: char) {
    '0' <= c <= '9'
  }

  predicate AllDigits(s: string) {
    forall i :: 0 <= i < |s| ==> IsDigit(s[i])
  }

  function DigitValue(c: char): (d: nat)
    requires IsDigit(c)
    ensures d < 10
  {
    c as int - '0' as int
  }

  function DigitChar(d: nat): (c: char)
    requires d < 10
    ensures IsDigit(c) && DigitValue(c) == d
  {
    ('0' as int + d) as char
  }

  /** The natural number written by a string of decimal digits. */
  function DigitsValue(s: string): nat
    requires AllDigits(s)
  {
    if |s| == 0 then 0 else DigitsValue(s[..|s| - 1]) * 10 + DigitValue(s[|s| - 1])
  }

  /** `r` in exactly `d` decimal digits, zero-padded on the left. */
  function PaddedDigits(r: nat, d: nat): (s: string)
    requires r < Pow10(d)
    ensures |s| == d && AllDigits(s) && DigitsValue(s) == r
  {
    if d == 0 then ""
    else
      var front := PaddedDigits(r / 10, d - 1);
      var s := front + [DigitChar(r % 10)];
      assert s[..|s| - 1] == front;
      s
  }

  /** Decimal notation of a natural number, without leading zeros. */
  function NatToString(n: nat): (r: string)
    ensures |r| >= 1 && AllDigits(r)
    ensures DigitsValue(r) == n
    ensures r[0] != '0' || n == 0
  {
    if n < 10 then [DigitChar(n)]
    else
      var prefix := NatToString(n / 10);
      var r := prefix + [DigitChar(n % 10)];
      assert r[..|r| - 1] == prefix;
      r
  }

  /** The value of the digits after a decimal point: "25" is 0.25. */
  function FractionValue(s: string): (r: real)
    requires AllDigits(s)
    ensures 0.0 <= r <= 1.0
  {
    if |s| == 0 then 0.0 else (DigitValue(s[0]) as real + FractionValue(s[1..])) / 10.0
  }

  /**
   * The unsigned part of a decimal literal: digits with at most one point and
   * at least one digit ("12", "1.5", ".5", "5."). Exponents are not modelled.
   */
  function ParseUnsignedDecimal(s: string): Option<real> {
    var k := IndexOf(s, '.');
    if k == |s| then
      if |s| > 0 && AllDigits(s) then Some(DigitsValue(s) as real) else None
    else
      var whole := s[..k];
      var frac := s[k + 1..];
      if AllDigits(whole) && AllDigits(frac) && |whole| + |frac| > 0 then
        Some(DigitsValue(whole) as real + FractionValue(frac))
      else None
  }

  /** A signed decimal literal, as accepted by both `float()` and `Number()`. */
  function ParseDecimal(s: string): Option<real> {
    if |s| > 0 && s[0] == '-' then
      match ParseUnsignedDecimal(s[1..])
      case Some(v) => Some(-v)
      case None => None
    else if |s| > 0 && s[0] == '+' then ParseUnsignedDecimal(s[1..])
    else ParseUnsignedDecimal(s)
  }

  /** The value of a leading digit is its weight. */
  lemma {:induction false} DigitsValueCons(c: char, t: string)
    requires IsDigit(c) && AllDigits(t)
    ensures AllDigits([c] + t)
    ensures DigitsValue([c] + t) == DigitValue(c) * Pow10(|t|) + DigitsValue(t)
  {
    var s := [c] + t;
    assert AllDigits(s) by {
      forall i | 0 <= i < |s| ensures IsDigit(s[i]) {
        if i > 0 {
          assert s[i] == t[i - 1];
        }
      }
    }
    if |t| > 0 {
      var front := t[..|t| - 1];
      assert AllDigits(front) by {
        forall i | 0 <= i < |front| ensures IsDigit(front[i]) {
          assert front[i] == t[i];
        }
      }
      assert s[..|s| - 1] == [c] + front;
      assert t[..|t| - 1] == front;
      DigitsValueCons(c, front);
      var d, p, last := DigitValue(c), Pow10(|front|), DigitValue(t[|t| - 1]);
      assert s[|s| - 1] == t[|t| - 1];
      assert DigitsValue(s) == (d * p + DigitsValue(front)) * 10 + last;
      assert DigitsValue(t) == DigitsValue(front) * 10 + last;
      assert Pow10(|t|) == 10 * p;
      TimesTen(d, p);
    } else {
      assert s[..0] == [];
    }
  }

  lemma TimesTen(d: nat, p: nat)
    ensures (d * p) * 10 == d * (10 * p)
  {
  }

  /** The digits after a point are worth their value over a power of ten. */
  lemma {:induction false} FractionAsDigits(s: string)
    requires AllDigits(s)
    ensures FractionValue(s) == DigitsValue(s) as real / Pow10(|s|) as real
  {
    if |s| > 0 {
      var t := s[1..];
      assert AllDigits(t) by {
        forall i | 0 <= i < |t| ensures IsDigit(t[i]) {
          assert t[i] == s[i + 1];
        }
      }
      FractionAsDigits(t);
      DigitsValueCons(s[0], t);
      assert [s[0]] + t == s;
      FractionStep(DigitValue(s[0]), DigitsValue(t), |t|);
    }
  }

  lemma FractionStep(d: nat, v: nat, k: nat)
    ensures (d as real + v as real / Pow10(k) as real) / 10.0 == (d * Pow10(k) + v) as real / Pow10(k + 1) as real
  {
    CastMul(d, Pow10(k));
    ShiftFraction(d as real, v as real, Pow10(k) as real);
  }

  /** A trailing zero after the point adds nothing. */
  lemma {:induction false} FractionTrailingZero(s: string)
    requires AllDigits(s)
    ensures AllDigits(s + "0") && FractionValue(s + "0") == FractionValue(s)
  {
    var z := s + "0";
    assert AllDigits(z) by {
      forall i | 0 <= i < |z| ensures IsDigit(z[i]) {
        if i < |s| {
          assert z[i] == s[i];
        }
      }
    }
    if |s| > 0 {
      var t := s[1..];
      assert AllDigits(t) by {
        forall i | 0 <= i < |t| ensures IsDigit(t[i]) {
          assert t[i] == s[i + 1];
        }
      }
      assert z[1..] == t + "0";
      FractionTrailingZero(t);
    } else {
      assert z[1..] == "";
    }
  }

  /** A string of digits holds no point. */
  lemma DigitsHaveNoPoint(w: string)
    requires AllDigits(w)
    ensures IndexOf(w, '.') == |w|
  {
    assert forall i :: 0 <= i < |w| ==> w[i] != '.' by {
      forall i | 0 <= i < |w| ensures w[i] != '.' {
        assert IsDigit(w[i]);
      }
    }
  }

  /** Digits read as their value. */
  lemma ReadWhole(w: string)
    requires |w| > 0 && AllDigits(w)
    ensures ParseUnsignedDecimal(w) == Some(DigitsValue(w) as real)
  {
    DigitsHaveNoPoint(w);
  }

  /** Where the point of `w + "." + f` is, and what lies either side of it. */
  lemma PointedParts(w: string, f: string)
    requires AllDigits(w)
    ensures var u := w + "." + f;
      IndexOf(u, '.') == |w| && u[..|w|] == w && u[|w| + 1..] == f
  {
    DigitsHaveNoPoint(w);
    IndexOfAppend(w, "." + f, '.');
    assert w + "." + f == w + ("." + f);
  }

  /** Digits, a point and digits read as the whole part plus the fraction, here `v`. */
  lemma ReadPointed(w: string, f: string, v: real)
    requires |w| > 0 && AllDigits(w) && AllDigits(f)
    requires DigitsValue(w) as real + FractionValue(f) == v
    ensures ParseUnsignedDecimal(w + "." + f) == Some(v)
  {
    PointedParts(w, f);
  }

  /** The same text read as a signed decimal, which it is since it starts with a digit. */
  lemma ReadPointedSigned(w: string, f: string, v: real)
    requires |w| > 0 && AllDigits(w) && AllDigits(f)
    requires DigitsValue(w) as real + FractionValue(f) == v
    ensures ParseDecimal(w + "." + f) == Some(v)
  {
    var u := w + "." + f;
    ReadPointed(w, f, v);
    assert u[0] == w[0];
  }

  /** Text that starts with a digit reads as its unsigned value. */
  lemma ReadPlain(u: string)
    requires |u| > 0 && IsDigit(u[0])
    ensures ParseDecimal(u) == ParseUnsignedDecimal(u)
  {
  }

  /** A minus in front of text that starts with a digit negates its value. */
  lemma ReadNegative(u: string)
    requires |u| > 0 && IsDigit(u[0])
    ensures ParseDecimal("-" + u) == Negated(ParseUnsignedDecimal(u))
  {
    assert ("-" + u)[0] == '-';
    assert ("-" + u)[1..] == u;
  }

  function Negated(v: Option<real>): Option<real> {
    match v
    case Some(x) => Some(-x)
    case None => None
  }

  /** The first `c` of `a + b` lies in `b` when `a` holds none. */
  lemma {:induction false} IndexOfAppend(a: string, b: string, c: char)
    requires IndexOf(a, c) == |a|
    ensures IndexOf(a + b, c) == |a| + IndexOf(b, c)
  {
    if |a| > 0 {
      assert (a + b)[1..] == a[1..] + b;
      IndexOfAppend(a[1..], b, c);
    } else {
      assert a + b == b;
    }
  }

  /** A natural number printed in decimal reads back as itself. */
  lemma ParseNatToString(n: nat)
    ensures ParseDecimal(NatToString(n)) == Some(n as real)
  {
    var s := NatToString(n);
    assert IsDigit(s[0]);
    assert forall i :: 0 <= i < |s| ==> s[i] != '.' by {
      forall i | 0 <= i < |s| ensures s[i] != '.' {
        assert IsDigit(s[i]);
      }
    }
  }

  lemma ParseDigitUnsigned(c: char)
    requires IsDigit(c)
    ensures ParseUnsignedDecimal([c]) == Some(DigitValue(c) as real)
  {
    var s := [c];
    assert IndexOf(s, '.') == 1 by {
      assert s[1..] == [];
    }
    assert AllDigits(s);
    assert s[..0] == [];
    assert DigitsValue(s) == DigitValue(c);
  }

  /** A single digit reads as its value. */
  lemma ParseDigit(c: char)
    requires IsDigit(c)
    ensures ParseDecimal([c]) == Some(DigitValue(c) as real)
  {
    ParseDigitUnsigned(c);
  }

  /** The characters a decimal literal may contain. */
  predicate IsNumeralChar(c: char) {
    IsDigit(c) || c == '.' || c == '+' || c == '-'
  }

  /** A parsed decimal literal contains only digits, a point and a sign: no whitespace, no letter. */
  lemma ParseDecimalCharset(s: string)
    requires ParseDecimal(s).Some?
    ensures forall i :: 0 <= i < |s| ==> IsNumeralChar(s[i])
  {
    var t := if |s| > 0 && (s[0] == '-' || s[0] == '+') then s[1..] else s;
    var k := IndexOf(t, '.');
    forall i | 0 <= i < |t| ensures IsNumeralChar(t[i]) {
      if k < |t| {
        if i < k {
          assert t[i] == t[..k][i];
        } else if i > k {
          assert t[i] == t[k + 1..][i - k - 1];
        }
      }
    }
    forall i | 0 <= i < |s| ensures IsNumeralChar(s[i]) {
      if t != s && i > 0 {
        assert s[i] == t[i - 1];
      }
    }
  }

  /** Text with a character outside the numeral characters is not a decimal literal. */
  lemma ParseDecimalOnlyNumerals(s: string)
    ensures ParseDecimal(s).Some? ==> forall i :: 0 <= i < |s| ==> IsNumeralChar(s[i])
  {
    if ParseDecimal(s).Some? {
      ParseDecimalCharset(s);
    }
  }

  /** A parsed decimal literal holds at least one digit. */
  lemma ParseDecimalHasDigit(s: string)
    requires ParseDecimal(s).Some?
    ensures exists i :: 0 <= i < |s| && IsDigit(s[i])
  {
    var signed := |s| > 0 && (s[0] == '-' || s[0] == '+');
    var t := if signed then s[1..] else s;
    assert ParseUnsignedDecimal(t).Some?;
    var k := IndexOf(t, '.');
    var i: nat;
    if k == |t| {
      i := 0;
    } else if k > 0 {
      i := 0;
      assert t[0] == t[..k][0];
    } else {
      i := k + 1;
      assert t[k + 1] == t[k + 1..][0];
    }
    assert IsDigit(t[i]);
    var j := if signed then i + 1 else i;
    assert s[j] == t[i];
  }

  predicate IsUpperAscii(c: char) {
    'A' <= c <= 'Z'
  }

  predicate IsLowerAscii(c: char) {
    'a' <= c <= 'z'
  }

  predicate IsAsciiLetter(c: char) {
    IsUpperAscii(c) || IsLowerAscii(c)
  }

  function LowerChar(c: char): (r: char)
    ensures !IsUpperAscii(r)
    ensures IsAsciiLetter(c) <==> IsLowerAscii(r)
    ensures IsDigit(c) <==> IsDigit(r)
    ensures !IsUpperAscii(c) ==> r == c
  {
    if IsUpperAscii(c) then (c as int + 32) as char else c
  }

  function UpperChar(c: char): (r: char)
    ensures !IsLowerAscii(r)
    ensures IsAsciiLetter(c) <==> IsUpperAscii(r)
    ensures !IsLowerAscii(c) ==> r == c
  {
    if IsLowerAscii(c) then (c as int - 32) as char else c
  }

  /** `s.lower()` / `s.toLowerCase()` restricted to ASCII letters. */
  function Lower(s: string): (r: string)
    ensures |r| == |s|
    ensures forall i :: 0 <= i < |s| ==> r[i] == LowerChar(s[i])
  {
    if |s| == 0 then "" else [LowerChar(s[0])] + Lower(s[1..])
  }
}
