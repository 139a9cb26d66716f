/**
 * The browser client's number helpers: reading what the user typed into a
 * quantity field and printing volumes.
 * Values reach these helpers as the text `value.toString()` gives, with
 * `None` for `null` and `undefined`.
 */
module ClientNumbers {
  import opened Wrappers
  import opened Numeric
  import opened Text
  import Utils

  // ---------------------------------------------------------------------------
  // parseNumericInput
  // ---------------------------------------------------------------------------

  /**
   * JavaScript `Number(text)` over the decimal grammar: text that is blank
   * after trimming reads as 0, and anything that is not a decimal literal
   * is `NaN`, written `None`.
   */
  function JsNumber(text: string): Option<real> {
    if Strip(JavaScript, text) == "" then Some(0.0) else ParseDecimal(Strip(JavaScript, text))
  }

  /** The characters the base `-?\d*\.?\d+` of a shorthand may contain. */
  predicate IsBaseChar(c: char) {
    IsDigit(c) || c == '.' || c == '-'
  }

  /** Length of the longest prefix of base characters. */
  function BaseLength(s: string): (k: nat)
    ensures k <= |s|
    ensures forall i :: 0 <= i < k ==> IsBaseChar(s[i])
    ensures k < |s| ==> !IsBaseChar(s[k])
  {
    if |s| == 0 || !IsBaseChar(s[0]) then 0 else 1 + BaseLength(s[1..])
  }

  /**
   * The base of a shorthand, `-?\d*\.?\d+`: an optional minus, digits, and
   * at most one point, which must be followed by at least one digit.
   */
  predicate IsShorthandBase(b: string) {
    var body := if |b| > 0 && b[0] == '-' then b[1..] else b;
    var k := IndexOf(body, '.');
    if k == |body| then |body| > 0 && AllDigits(body)
    else AllDigits(body[..k]) && k + 1 < |body| && AllDigits(body[k + 1..])
  }

  predicate AllLetters(s: string) {
    forall i :: 0 <= i < |s| ==> IsAsciiLetter(s[i])
  }

  /**
   * The rest of the pattern, `\s*([KMB])(?:[A-Z]*)?` matched without regard
   * to case: the multiplier of its suffix letter.
   */
  function SuffixMultiplier(rest: string): Option<real> {
    var t := TrimStart(JavaScript, rest);
    if |t| > 0 && AllLetters(t[1..]) then Utils.ShorthandMultiplier(UpperChar(t[0])) else None
  }

  /**
   * The shorthand pattern `^(-?\d*\.?\d+)\s*([KMB])(?:[A-Z]*)?$` (flag `i`).
   * A base consists of base characters and ends in a digit, while the rest
   * holds none, so the base is exactly the longest prefix of base characters.
   */
  function ShorthandMatch(text: string): Option<real> {
    var k := BaseLength(text);
    if !IsShorthandBase(text[..k]) then None
    else
      match SuffixMultiplier(text[k..])
      case None => None
      case Some(m) =>
        match ParseDecimal(text[..k])
        case None => None
        case Some(b) => Some(Scaled(b, m))
  }

  /** A shorthand base times its multiplier. */
  function Scaled(base: real, multiplier: real): real {
    base * multiplier
  }

  /** The commas-removed text the parser looks at. */
  function CleanedText(s: string): string {
    RemoveChar(Strip(JavaScript, s), ',')
  }

  /**
   * `parseNumericInput(value)` as written: trim, remove commas, treat empty
   * text as missing, then read text that `Number()` accepts directly and
   * otherwise try the shorthand pattern.
   */
  function ParseNumericInput(value: Option<string>): (r: Option<real>)
    ensures value.None? ==> r.None?
    ensures value.Some? && CleanedText(value.value) == "" ==> r.None?
    ensures value.Some? && CleanedText(value.value) != "" && Strip(JavaScript, CleanedText(value.value)) == "" ==> r == Some(0.0)
  {
    match value
    case None => None
    case Some(s) =>
      var text := CleanedText(s);
      if text == "" then None
      else
        match JsNumber(text)
        case Some(v) => Some(v)
        case None => ShorthandMatch(text)
  }

  /**
   * The evident intent of `parseNumericInput`: text that holds nothing but
   * whitespace once the commas are gone is missing as well.
   */
  function ParseNumericInputStrict(value: Option<string>): (r: Option<real>)
    ensures value.None? ==> r.None?
    ensures value.Some? && Strip(JavaScript, CleanedText(value.value)) == "" ==> r.None?
    ensures value.Some? && Strip(JavaScript, CleanedText(value.value)) != "" ==> r == ParseNumericInput(value)
  {
    match value
    case None => None
    case Some(s) => if Strip(JavaScript, CleanedText(s)) == "" then None else ParseNumericInput(value)
  }

  /** A decimal that holds a letter is not a decimal literal. */
  lemma NotDecimal(s: string, i: nat)
    requires i < |s| && IsAsciiLetter(s[i])
    ensures ParseDecimal(s).None?
  {
    ParseDecimalOnlyNumerals(s);
  }

  /** The base of `digits + rest` is `digits` when `rest` starts with a non-base character. */
  lemma BaseLengthOf(digits: string, rest: string)
    requires forall i :: 0 <= i < |digits| ==> IsBaseChar(digits[i])
    requires |rest| > 0 && !IsBaseChar(rest[0])
    ensures BaseLength(digits + rest) == |digits|
  {
    var s := digits + rest;
    assert forall i :: 0 <= i < |digits| ==> s[i] == digits[i];
    assert !IsBaseChar(s[|digits|]);
  }

  /** Text with no edge whitespace and no comma is its own cleaned text. */
  lemma CleanAlready(s: string)
    requires |s| > 0 ==> !IsWhitespace(JavaScript, s[0]) && !IsWhitespace(JavaScript, s[|s| - 1])
    requires forall i :: 0 <= i < |s| ==> s[i] != ','
    ensures CleanedText(s) == s
  {
    StripNoEdges(JavaScript, s);
    RemoveCharAbsent(s, ',');
  }

  /** Cleaned text holding a letter is read by the shorthand pattern alone. */
  lemma ReadAsShorthand(s: string, i: nat)
    requires i < |CleanedText(s)| && IsAsciiLetter(CleanedText(s)[i])
    ensures ParseNumericInput(Some(s)) == ShorthandMatch(CleanedText(s))
  {
    LetterNotNumber(CleanedText(s), i);
  }

  /** `Number()` reads no text that holds a letter. */
  lemma LetterNotNumber(t: string, i: nat)
    requires i < |t| && IsAsciiLetter(t[i])
    ensures JsNumber(t).None?
  {
    StripKeeps(JavaScript, t);
    assert t[i] in Strip(JavaScript, t);
    LetterNotNumeral(Strip(JavaScript, t), t[i]);
  }

  lemma LetterNotNumeral(u: string, c: char)
    requires c in u && IsAsciiLetter(c)
    ensures u != "" && ParseDecimal(u).None?
  {
    ParseDecimalOnlyNumerals(u);
  }

  /** Text without edge whitespace or commas that holds a letter is read by the shorthand pattern alone. */
  lemma CleanShorthandInput(s: string, i: nat)
    requires |s| > 0 && !IsWhitespace(JavaScript, s[0]) && !IsWhitespace(JavaScript, s[|s| - 1])
    requires forall j :: 0 <= j < |s| ==> s[j] != ','
    requires i < |s| && IsAsciiLetter(s[i])
    ensures ParseNumericInput(Some(s)) == ShorthandMatch(s)
  {
    CleanAlready(s);
    ReadAsShorthand(s, i);
  }

  /** Every character of a numeral is a digit. */
  lemma NumeralChars(n: nat)
    ensures forall i :: 0 <= i < |NatToString(n)| ==> IsDigit(NatToString(n)[i])
  {
  }

  /** A count written in plain digits reads as itself. */
  lemma NumeralInput(n: nat)
    ensures ParseNumericInput(Some(NatToString(n))) == Some(n as real)
  {
    var s := NatToString(n);
    NumeralChars(n);
    assert IsDigit(s[0]) && IsDigit(s[|s| - 1]);
    assert forall i :: 0 <= i < |s| ==> s[i] != ',' by {
      forall i | 0 <= i < |s| ensures s[i] != ',' {
        assert IsDigit(s[i]);
      }
    }
    CleanAlready(s);
    StripNoEdges(JavaScript, s);
    ParseNatToString(n);
  }

  /** In text without whitespace, commas are ignored wherever they stand. */
  lemma CommasIgnored(s: string)
    requires NoWhitespace(JavaScript, s)
    ensures ParseNumericInput(Some(s)) == ParseNumericInput(Some(RemoveChar(s, ',')))
  {
    CleanedIgnoresCommas(s);
    SameCleanedText(s, RemoveChar(s, ','));
  }

  lemma CleanedIgnoresCommas(s: string)
    requires NoWhitespace(JavaScript, s)
    ensures CleanedText(s) == CleanedText(RemoveChar(s, ','))
  {
    var t := RemoveChar(s, ',');
    RemoveCharNoWhitespace(JavaScript, s, ',');
    StripNoEdges(JavaScript, s);
    StripNoEdges(JavaScript, t);
    RemoveCharIdempotent(s, ',');
  }

  /** The reading depends on the input only through its cleaned text. */
  lemma SameCleanedText(s: string, t: string)
    requires CleanedText(s) == CleanedText(t)
    ensures ParseNumericInput(Some(s)) == ParseNumericInput(Some(t))
  {
  }

  /** A count written with thousands commas, as in "1,500,000", reads as itself. */
  lemma GroupedNumeralInput(s: string, n: nat)
    requires NoWhitespace(JavaScript, s) && RemoveChar(s, ',') == NatToString(n)
    ensures ParseNumericInput(Some(s)) == Some(n as real)
  {
    CommasIgnored(s);
    NumeralInput(n);
  }

  /** The shorthand pattern on a base and a suffix it recognises. */
  lemma ShorthandMatchSplit(base: string, rest: string, v: real, m: real)
    requires BaseLength(base + rest) == |base| && IsShorthandBase(base)
    requires ParseDecimal(base) == Some(v) && SuffixMultiplier(rest) == Some(m)
    ensures ShorthandMatch(base + rest) == Some(v * m)
  {
    var s := base + rest;
    assert s[..|base|] == base;
    assert s[|base|..] == rest;
    ShorthandMatchAt(s, |base|, v, m);
  }

  lemma ShorthandMatchAt(s: string, k: nat, v: real, m: real)
    requires k == BaseLength(s) && IsShorthandBase(s[..k])
    requires ParseDecimal(s[..k]) == Some(v) && SuffixMultiplier(s[k..]) == Some(m)
    ensures ShorthandMatch(s) == Some(v * m)
  {
    assert ShorthandMatch(s) == Some(Scaled(v, m));
  }

  /** A suffix letter followed by letters is recognised. */
  lemma SuffixOf(c: char, letters: string)
    requires !IsWhitespace(JavaScript, c) && AllLetters(letters)
    ensures SuffixMultiplier([c] + letters) == Utils.ShorthandMultiplier(UpperChar(c))
  {
    var rest := [c] + letters;
    assert TrimStart(JavaScript, rest) == rest;
    assert rest[0] == c && rest[1..] == letters;
  }

  /** A numeral is a shorthand base. */
  lemma NumeralIsBase(n: nat)
    ensures IsShorthandBase(NatToString(n))
    ensures forall i :: 0 <= i < |NatToString(n)| ==> IsBaseChar(NatToString(n)[i])
  {
    var digits := NatToString(n);
    NumeralChars(n);
    assert IndexOf(digits, '.') == |digits|;
  }

  /** The shorthand pattern on a whole number, a suffix letter and further letters. */
  lemma ShorthandMatchOf(n: nat, c: char, letters: string)
    requires Utils.ShorthandMultiplier(UpperChar(c)).Some?
    requires AllLetters(letters)
    ensures ShorthandMatch(NatToString(n) + ([c] + letters)) ==
      Some(n as real * Utils.ShorthandMultiplier(UpperChar(c)).value)
  {
    var digits := NatToString(n);
    var rest := [c] + letters;
    NumeralIsBase(n);
    BaseLengthOf(digits, rest);
    assert IsAsciiLetter(c);
    SuffixOf(c, letters);
    ParseNatToString(n);
    ShorthandMatchSplit(digits, rest, n as real, Utils.ShorthandMultiplier(UpperChar(c)).value);
  }

  /**
   * A whole number followed by `K`, `M` or `B` in either case and any further
   * letters is read as the number times the multiplier: "750K" is 750000 and
   * "2Bn" is 2000000000.
   */
  lemma ShorthandInput(n: nat, c: char, letters: string)
    requires Utils.ShorthandMultiplier(UpperChar(c)).Some?
    requires AllLetters(letters)
    ensures ParseNumericInput(Some(NatToString(n) + [c] + letters)) ==
      Some(n as real * Utils.ShorthandMultiplier(UpperChar(c)).value)
  {
    var digits := NatToString(n);
    var rest := [c] + letters;
    var s := digits + rest;
    assert s == NatToString(n) + [c] + letters;
    NumeralChars(n);
    assert IsAsciiLetter(c);
    assert s[|digits|] == c;
    assert IsAsciiLetter(s[|s| - 1]) by {
      if |letters| > 0 {
        assert s[|s| - 1] == letters[|letters| - 1];
      }
    }
    assert forall i :: 0 <= i < |s| ==> s[i] != ',' by {
      forall i | 0 <= i < |s| ensures s[i] != ',' {
        if i < |digits| {
          assert s[i] == digits[i];
        } else if i > |digits| {
          assert s[i] == letters[i - |digits| - 1];
        }
      }
    }
    CleanAlready(s);
    ReadAsShorthand(s, |digits|);
    ShorthandMatchOf(n, c, letters);
  }

  /** Digits, a point and digits form a shorthand base worth the pointed value. */
  lemma PointedIsBase(w: string, f: string, v: real)
    requires |w| > 0 && AllDigits(w) && |f| > 0 && AllDigits(f)
    requires v == DigitsValue(w) as real + FractionValue(f)
    ensures IsShorthandBase(w + "." + f)
    ensures forall i :: 0 <= i < |w + "." + f| ==> IsBaseChar((w + "." + f)[i])
    ensures ParseDecimal(w + "." + f) == Some(v)
  {
    var b := w + "." + f;
    assert IsShorthandBase(b) by {
      PointedParts(w, f);
      assert b[0] == w[0];
    }
    PointedCharset(w, f);
    ReadPointedSigned(w, f, v);
  }

  /** Every character of digits, a point and digits is a base character. */
  lemma PointedCharset(w: string, f: string)
    requires AllDigits(w) && AllDigits(f)
    ensures forall i :: 0 <= i < |w + "." + f| ==> IsBaseChar((w + "." + f)[i])
  {
    var b := w + "." + f;
    forall i | 0 <= i < |b| ensures IsBaseChar(b[i]) {
      if i < |w| {
        assert b[i] == w[i];
      } else if i > |w| {
        assert b[i] == f[i - |w| - 1];
      }
    }
  }

  /** The shorthand pattern on a decimal worth `v`, a suffix letter worth `m` and further letters. */
  lemma DecimalShorthandMatch(w: string, f: string, c: char, letters: string, v: real, m: real)
    requires |w| > 0 && AllDigits(w) && |f| > 0 && AllDigits(f)
    requires v == DigitsValue(w) as real + FractionValue(f)
    requires Utils.ShorthandMultiplier(UpperChar(c)) == Some(m)
    requires AllLetters(letters)
    ensures ShorthandMatch(w + "." + f + ([c] + letters)) == Some(v * m)
  {
    var b := w + "." + f;
    var rest := [c] + letters;
    assert IsShorthandBase(b) && ParseDecimal(b) == Some(v) && forall i :: 0 <= i < |b| ==> IsBaseChar(b[i]) by {
      PointedIsBase(w, f, v);
    }
    assert BaseLength(b + rest) == |b| by {
      assert IsAsciiLetter(c);
      BaseLengthOf(b, rest);
    }
    assert SuffixMultiplier(rest) == Some(m) by {
      assert IsAsciiLetter(c);
      SuffixOf(c, letters);
    }
    ShorthandMatchSplit(b, rest, v, m);
  }

  /** A decimal followed by letters is read by the shorthand pattern alone. */
  lemma DecimalReadAsShorthand(w: string, f: string, c: char, letters: string)
    requires |w| > 0 && AllDigits(w) && |f| > 0 && AllDigits(f)
    requires IsAsciiLetter(c) && AllLetters(letters)
    ensures var s := w + "." + f + ([c] + letters);
      ParseNumericInput(Some(s)) == ShorthandMatch(s)
  {
    var b := w + "." + f;
    var s := b + ([c] + letters);
    PointedIsBase(w, f, DigitsValue(w) as real + FractionValue(f));
    assert s[|b|] == c;
    assert s[0] == w[0];
    assert IsAsciiLetter(s[|s| - 1]) by {
      if |letters| > 0 {
        assert s[|s| - 1] == letters[|letters| - 1];
      }
    }
    assert forall i :: 0 <= i < |s| ==> s[i] != ',' by {
      forall i | 0 <= i < |s| ensures s[i] != ',' {
        if i < |b| {
          assert s[i] == b[i] && IsBaseChar(b[i]);
        } else if i > |b| {
          assert s[i] == letters[i - |b| - 1];
        }
      }
    }
    CleanAlready(s);
    ReadAsShorthand(s, |b|);
  }

  /**
   * A decimal `w.f`, worth `v`, followed by `K`, `M` or `B` in either case
   * and any further letters is read as `v` times the letter's multiplier
   * `m`: "1.5m" is 1500000.
   */
  lemma DecimalShorthandInput(w: string, f: string, c: char, letters: string, v: real, m: real)
    requires |w| > 0 && AllDigits(w) && |f| > 0 && AllDigits(f)
    requires v == DigitsValue(w) as real + FractionValue(f)
    requires Utils.ShorthandMultiplier(UpperChar(c)) == Some(m)
    requires AllLetters(letters)
    ensures ParseNumericInput(Some(w + "." + f + [c] + letters)) == Some(v * m)
  {
    assert w + "." + f + ([c] + letters) == w + "." + f + [c] + letters;
    assert IsAsciiLetter(c);
    DecimalReadAsShorthand(w, f, c, letters);
    DecimalShorthandMatch(w, f, c, letters, v, m);
  }

  /**
   * On a whole number with a shorthand suffix the client reads what the
   * server's `parse_shorthand_number` reads.
   */
  lemma ShorthandAgreesWithServer(n: nat, c: char)
    requires Utils.ShorthandMultiplier(UpperChar(c)).Some?
    ensures ParseNumericInput(Some(NatToString(n) + [c])) == Utils.ParseShorthandNumber(Utils.PyStr(NatToString(n) + [c]))
  {
    ShorthandInput(n, c, "");
    assert NatToString(n) + [c] + "" == NatToString(n) + [c];
    Utils.ShorthandOfNumeral(n, c);
  }

  /** The characters a read value may contain. */
  predicate IsNumericInputChar(c: char) {
    IsNumeralChar(c) || IsWhitespace(JavaScript, c) || c == ',' || IsAsciiLetter(c)
  }

  /** A recognised suffix holds only whitespace and letters. */
  lemma SuffixCharset(rest: string)
    requires SuffixMultiplier(rest).Some?
    ensures forall j :: 0 <= j < |rest| ==> IsWhitespace(JavaScript, rest[j]) || IsAsciiLetter(rest[j])
  {
    var u := TrimStart(JavaScript, rest);
    var off := |rest| - |u|;
    assert IsAsciiLetter(u[0]);
    forall j | off <= j < |rest| ensures IsAsciiLetter(rest[j]) {
      assert rest[j] == u[j - off];
      if j > off {
        assert u[j - off] == u[1..][j - off - 1];
      }
    }
  }

  /** Text the shorthand pattern accepts holds only base characters, whitespace and letters. */
  lemma ShorthandCharset(t: string)
    requires ShorthandMatch(t).Some?
    ensures forall i :: 0 <= i < |t| ==> IsNumericInputChar(t[i])
  {
    ShorthandMatchParts(t);
    SplitCharset(t, BaseLength(t));
  }

  lemma SplitCharset(t: string, k: nat)
    requires k == BaseLength(t) && SuffixMultiplier(t[k..]).Some?
    ensures forall i :: 0 <= i < |t| ==> IsNumericInputChar(t[i])
  {
    SuffixCharset(t[k..]);
    BaseStaysNumeric(t);
    PartsCharset(t, k);
  }

  lemma BaseStaysNumeric(t: string)
    ensures forall i :: 0 <= i < BaseLength(t) ==> IsNumericInputChar(t[i])
  {
  }

  lemma PartsCharset(t: string, k: nat)
    requires k <= |t|
    requires forall i :: 0 <= i < k ==> IsNumericInputChar(t[i])
    requires forall j :: 0 <= j < |t[k..]| ==> IsWhitespace(JavaScript, t[k..][j]) || IsAsciiLetter(t[k..][j])
    ensures forall i :: 0 <= i < |t| ==> IsNumericInputChar(t[i])
  {
    forall i | k <= i < |t| ensures IsNumericInputChar(t[i]) {
      assert t[i] == t[k..][i - k];
    }
  }

  /** Text `Number()` accepts holds only numeral characters and whitespace. */
  lemma JsNumberCharset(t: string)
    requires JsNumber(t).Some?
    ensures forall i :: 0 <= i < |t| ==> IsNumericInputChar(t[i])
  {
    StripKeeps(JavaScript, t);
    ParseDecimalOnlyNumerals(Strip(JavaScript, t));
    forall i | 0 <= i < |t| && !IsWhitespace(JavaScript, t[i]) ensures IsNumeralChar(t[i]) {
      assert t[i] in Strip(JavaScript, t);
    }
  }

  /** Every character of cleaned text that reads as a number is a digit, point, sign, whitespace or letter. */
  lemma CleanedCharset(t: string)
    requires JsNumber(t).Some? || ShorthandMatch(t).Some?
    ensures forall i :: 0 <= i < |t| ==> IsNumericInputChar(t[i])
  {
    if JsNumber(t).Some? {
      JsNumberCharset(t);
    } else {
      ShorthandCharset(t);
    }
  }

  /**
   * Text with any character other than a digit, point, sign, comma,
   * whitespace or ASCII letter is never read as a number.
   */
  lemma NumericInputCharset(s: string)
    requires ParseNumericInput(Some(s)).Some?
    ensures forall i :: 0 <= i < |s| ==> IsNumericInputChar(s[i])
  {
    var t := CleanedText(s);
    CleanedCharset(t);
    StripKeeps(JavaScript, s);
    RemoveCharKeeps(Strip(JavaScript, s), ',');
    forall i | 0 <= i < |s| ensures IsNumericInputChar(s[i]) {
      if !IsWhitespace(JavaScript, s[i]) && s[i] != ',' {
        assert s[i] in Strip(JavaScript, s);
        assert s[i] in t;
      }
    }
  }

  /** Text between two commas is what cleaning leaves of it. */
  lemma BetweenCommas(mid: string)
    requires forall i :: 0 <= i < |mid| ==> mid[i] != ','
    ensures CleanedText("," + mid + ",") == mid
  {
    var s := "," + mid + ",";
    assert s[0] == ',' && s[|s| - 1] == ',';
    StripNoEdges(JavaScript, s);
    RemoveAround(mid, ',');
  }

  /**
   * Commas separated by whitespace read as 0 on the client, while the
   * server's `parse_shorthand_number` reads the same text as missing: ", ,"
   * is one such text.
   */
  lemma BlankBetweenCommas(w: string)
    requires |w| > 0
    requires forall i :: 0 <= i < |w| ==> IsWhitespace(JavaScript, w[i]) && IsWhitespace(Python, w[i])
    ensures ParseNumericInput(Some("," + w + ",")) == Some(0.0)
    ensures Utils.ParseShorthandNumber(Utils.PyStr("," + w + ",")) == None
    ensures ParseNumericInputStrict(Some("," + w + ",")) == None
  {
    ClientBlankBetweenCommas(w);
    Utils.BlankBetweenCommas(w);
  }

  lemma ClientBlankBetweenCommas(w: string)
    requires |w| > 0
    requires forall i :: 0 <= i < |w| ==> IsWhitespace(JavaScript, w[i])
    ensures CleanedText("," + w + ",") == w
    ensures Strip(JavaScript, w) == ""
  {
    BetweenCommas(w);
    StripBlank(JavaScript, w);
  }

  /** Cleaned text that is not blank and reads as a number holds a digit. */
  lemma CleanedHasDigit(t: string)
    requires Strip(JavaScript, t) != ""
    requires JsNumber(t).Some? || ShorthandMatch(t).Some?
    ensures exists i :: 0 <= i < |t| && IsDigit(t[i])
  {
    if JsNumber(t).Some? {
      JsNumberHasDigit(t);
    } else {
      ShorthandHasDigit(t);
    }
  }

  lemma JsNumberHasDigit(t: string)
    requires Strip(JavaScript, t) != "" && JsNumber(t).Some?
    ensures exists i :: 0 <= i < |t| && IsDigit(t[i])
  {
    ParseDecimalHasDigit(Strip(JavaScript, t));
    var j :| 0 <= j < |Strip(JavaScript, t)| && IsDigit(Strip(JavaScript, t)[j]);
    StripFrom(JavaScript, t);
    assert Strip(JavaScript, t)[j] in t;
  }

  lemma ShorthandHasDigit(t: string)
    requires ShorthandMatch(t).Some?
    ensures exists i :: 0 <= i < |t| && IsDigit(t[i])
  {
    ShorthandMatchParts(t);
    PrefixHasDigit(t, BaseLength(t));
  }

  /** A match consists of a base and a recognised suffix. */
  lemma ShorthandMatchParts(t: string)
    requires ShorthandMatch(t).Some?
    ensures IsShorthandBase(t[..BaseLength(t)]) && SuffixMultiplier(t[BaseLength(t)..]).Some?
  {
  }

  lemma PrefixHasDigit(t: string, k: nat)
    requires k <= |t| && IsShorthandBase(t[..k])
    ensures exists i :: 0 <= i < |t| && IsDigit(t[i])
  {
    var b := t[..k];
    BaseHasDigit(b);
    var j :| 0 <= j < |b| && IsDigit(b[j]);
    assert t[j] == b[j];
  }

  /** A shorthand base holds a digit. */
  lemma BaseHasDigit(b: string)
    requires IsShorthandBase(b)
    ensures exists j :: 0 <= j < |b| && IsDigit(b[j])
  {
    var signed := |b| > 0 && b[0] == '-';
    var body := if signed then b[1..] else b;
    var p := IndexOf(body, '.');
    var j := if p == |body| then 0 else p + 1;
    if p < |body| {
      assert body[p + 1] == body[p + 1..][0];
    }
    assert IsDigit(body[j]);
    var jb := if signed then j + 1 else j;
    assert b[jb] == body[j];
  }

  /** Cleaning invents no character. */
  lemma CleanedFrom(s: string)
    ensures forall j :: 0 <= j < |CleanedText(s)| ==> CleanedText(s)[j] in s
  {
    RemoveCharKeeps(Strip(JavaScript, s), ',');
    StripFrom(JavaScript, s);
  }

  /** The corrected reader only ever reads a number from text that holds a digit. */
  lemma StrictNeedsDigit(s: string)
    requires ParseNumericInputStrict(Some(s)).Some?
    ensures exists i :: 0 <= i < |s| && IsDigit(s[i])
  {
    var t := CleanedText(s);
    CleanedHasDigit(t);
    var j :| 0 <= j < |t| && IsDigit(t[j]);
    CleanedFrom(s);
    assert t[j] in s;
  }

  // ---------------------------------------------------------------------------
  // formatVolume
  // ---------------------------------------------------------------------------

  function Abs(x: real): (r: real)
    ensures r >= 0.0 && (r == x || r == -x)
  {
    if x < 0.0 then -x else x
  }

  /**
   * The whole number of units of `10^-d` that `x.toFixed(d)` prints: the
   * nearest to `|x|·10^d`, the larger of two equally near.
   */
  function FixedUnits(x: real, d: nat): nat {
    var n := JsMathRound(Abs(x) * Pow10(d) as real);
    assert n >= 0 by {
      assert Abs(x) * Pow10(d) as real >= 0.0;
    }
    n
  }

  /** The units lie within half a unit of `|x|·10^d`. */
  lemma FixedUnitsBounds(x: real, d: nat)
    ensures var y := Abs(x) * Pow10(d) as real;
      y - 1.0 / 2.0 < FixedUnits(x, d) as real <= y + 1.0 / 2.0
  {
  }

  /** Whole and fractional units of `n` units of `1/p`. */
  function WholeUnits(n: nat, p: nat): nat
    requires p >= 1
  {
    n / p
  }

  function FractionUnits(n: nat, p: nat): (r: nat)
    requires p >= 1
    ensures r < p
  {
    n % p
  }

  /** The digits `toFixed` prints for `n` units of `10^-d`: the whole part, then a point and `d` digits. */
  function FixedBody(n: nat, d: nat): (s: string)
    ensures |s| > 0 && IsDigit(s[0])
  {
    if d == 0 then NatToString(n)
    else NatToString(WholeUnits(n, Pow10(d))) + "." + PaddedDigits(FractionUnits(n, Pow10(d)), d)
  }

  /**
   * `x.toFixed(d)` for `|x| < 10^21`: a minus for negative `x`, then the
   * units printed with `d` decimals.
   */
  function ToFixed(x: real, d: nat): string {
    (if x < 0.0 then "-" else "") + FixedBody(FixedUnits(x, d), d)
  }

  /** The value `x.toFixed(d)` denotes. */
  function FixedValue(x: real, d: nat): real {
    var v := FixedUnits(x, d) as real / Pow10(d) as real;
    if x < 0.0 then -v else v
  }

  /**
   * The two replacements of `formatVolume`: zeros after the last nonzero
   * fraction digit go, and a point followed by zeros only goes with them.
   */
  function TrimFraction(fixed: string): string {
    var k := IndexOf(fixed, '.');
    if k == |fixed| then fixed
    else
      var frac := TrimTrailing(fixed[k + 1..], '0');
      if frac == "" then fixed[..k] else fixed[..k + 1] + frac
  }

  /** `formatVolume(value, digits)`: `null` for a missing or non-finite value. */
  function FormatVolume(value: Option<Utils.Float>, digits: nat): (r: Option<string>)
    ensures r.Some? <==> value.Some? && value.value.Finite?
  {
    match value
    case Some(Finite(x)) => Some(TrimFraction(ToFixed(x, digits)))
    case _ => None
  }

  /** Printed text ends in a digit, and after a point never in a zero. */
  predicate IsShortestDecimal(s: string) {
    && |s| > 0
    && IsDigit(s[|s| - 1])
    && (IndexOf(s, '.') < |s| ==> s[|s| - 1] != '0')
  }

  /** `toFixed` is at most half a unit in the last place away from the value. */
  lemma FixedValueError(x: real, d: nat)
    ensures -1.0 / (2 * Pow10(d)) as real <= FixedValue(x, d) - x <= 1.0 / (2 * Pow10(d)) as real
  {
    var p := Pow10(d) as real;
    var n := FixedUnits(x, d) as real;
    FixedUnitsBounds(x, d);
    ScaledRoundError(Abs(x), n, p);
    assert (2 * Pow10(d)) as real == 2.0 * p;
  }

  /** The whole and fractional units of `toFixed` add up to its value. */
  lemma UnitsSplit(n: nat, p: nat)
    requires p >= 1
    ensures WholeUnits(n, p) as real + FractionUnits(n, p) as real / p as real == n as real / p as real
  {
    var q := n / p;
    var r := n % p;
    assert n == q * p + r;
    CastMul(q, p);
    assert n as real == q as real * p as real + r as real;
  }

  /** The whole digits and the fraction digits of the units add up to their value. */
  lemma FixedPartsValue(n: nat, d: nat)
    requires d > 0
    ensures var p := Pow10(d);
      DigitsValue(NatToString(WholeUnits(n, p))) as real + FractionValue(PaddedDigits(FractionUnits(n, p), d))
      == n as real / p as real
  {
    var p := Pow10(d);
    var f := PaddedDigits(FractionUnits(n, p), d);
    FractionAsDigits(f);
    assert FractionValue(f) == FractionUnits(n, p) as real / p as real;
    UnitsSplit(n, p);
  }

  lemma FixedBodyWhole(n: nat)
    ensures ParseUnsignedDecimal(FixedBody(n, 0)) == Some(n as real)
  {
    ReadWhole(NatToString(n));
  }

  lemma FixedBodyPointed(n: nat, d: nat)
    requires d > 0
    ensures ParseUnsignedDecimal(FixedBody(n, d)) == Some(n as real / Pow10(d) as real)
  {
    var p := Pow10(d);
    var w := NatToString(WholeUnits(n, p));
    var f := PaddedDigits(FractionUnits(n, p), d);
    FixedPartsValue(n, d);
    ReadPointed(w, f, n as real / p as real);
  }

  /** The printed units read back as their value. */
  lemma FixedBodyReadsBack(n: nat, d: nat)
    ensures ParseUnsignedDecimal(FixedBody(n, d)) == Some(n as real / Pow10(d) as real)
  {
    if d == 0 {
      FixedBodyWhole(n);
      assert Pow10(0) as real == 1.0;
    } else {
      FixedBodyPointed(n, d);
    }
  }

  /** `toFixed` text reads back as the value it denotes. */
  lemma ToFixedReadsBack(x: real, d: nat)
    ensures ParseDecimal(ToFixed(x, d)) == Some(FixedValue(x, d))
  {
    var body := FixedBody(FixedUnits(x, d), d);
    FixedBodyReadsBack(FixedUnits(x, d), d);
    if x < 0.0 {
      ReadNegative(body);
    } else {
      ReadPlain(body);
      assert ToFixed(x, d) == body;
    }
  }

  /** Trailing zeros of a fraction are worth nothing. */
  lemma {:induction false} TrimTrailingZerosValue(f: string)
    requires AllDigits(f)
    ensures AllDigits(TrimTrailing(f, '0'))
    ensures FractionValue(TrimTrailing(f, '0')) == FractionValue(f)
  {
    if |f| > 0 && f[|f| - 1] == '0' {
      var front := f[..|f| - 1];
      assert AllDigits(front) by {
        forall i | 0 <= i < |front| ensures IsDigit(front[i]) {
          assert front[i] == f[i];
        }
      }
      assert front + "0" == f;
      FractionTrailingZero(front);
      TrimTrailingZerosValue(front);
    }
  }

  /** What the trimming leaves of digits, a point and fraction digits. */
  function TrimmedBody(w: string, f: string): string {
    var t := TrimTrailing(f, '0');
    if t == "" then w else w + "." + t
  }

  /** Trimming changes neither the value nor, for a leading digit, the sign handling. */
  lemma TrimmedBodyValue(w: string, f: string)
    requires |w| > 0 && AllDigits(w) && AllDigits(f)
    ensures ParseUnsignedDecimal(TrimmedBody(w, f)) == ParseUnsignedDecimal(w + "." + f)
    ensures IsDigit(TrimmedBody(w, f)[0])
  {
    var t := TrimTrailing(f, '0');
    var v := DigitsValue(w) as real + FractionValue(f);
    ReadPointed(w, f, v);
    TrimTrailingZerosValue(f);
    if t == "" {
      assert FractionValue("") == 0.0;
      ReadWhole(w);
      assert TrimmedBody(w, f) == w;
    } else {
      ReadPointed(w, t, v);
      assert TrimmedBody(w, f) == w + "." + t;
    }
  }

  /** The trimmed text is as short as the value allows. */
  lemma TrimmedBodyShortest(sign: string, w: string, f: string)
    requires sign == "" || sign == "-"
    requires |w| > 0 && AllDigits(w) && AllDigits(f)
    ensures IsShortestDecimal(sign + TrimmedBody(w, f))
  {
    var t := TrimTrailing(f, '0');
    var r := sign + TrimmedBody(w, f);
    if t == "" {
      DigitsHaveNoPoint(w);
      IndexOfAppend(sign, w, '.');
      assert r[|r| - 1] == w[|w| - 1];
    } else {
      assert r[|r| - 1] == t[|t| - 1];
      assert t[|t| - 1] == f[|t| - 1];
    }
  }

  /** The two replacements, once the first point is known to sit at `k`. */
  lemma TrimFractionIndexed(s: string, k: nat)
    requires k < |s| && IndexOf(s, '.') == k
    ensures var t := TrimTrailing(s[k + 1..], '0');
      TrimFraction(s) == if t == "" then s[..k] else s[..k + 1] + t
  {
  }

  /** How text with its first point after `a` splits around that point. */
  lemma PointSplit(a: string, f: string)
    requires IndexOf(a, '.') == |a|
    ensures IndexOf(a + "." + f, '.') == |a|
    ensures (a + "." + f)[|a| + 1..] == f
    ensures (a + "." + f)[..|a|] == a
    ensures (a + "." + f)[..|a| + 1] == a + "."
  {
    IndexOfAppend(a, "." + f, '.');
    assert a + "." + f == a + ("." + f);
  }

  /** The two replacements applied to text whose first point follows `a`. */
  lemma TrimFractionAt(a: string, f: string)
    requires IndexOf(a, '.') == |a|
    ensures TrimFraction(a + "." + f) == if TrimTrailing(f, '0') == "" then a else a + "." + TrimTrailing(f, '0')
  {
    PointSplit(a, f);
    TrimFractionIndexed(a + "." + f, |a|);
  }

  /** A sign and digits contain no point. */
  lemma SignedDigitsHaveNoPoint(sign: string, w: string)
    requires sign == "" || sign == "-"
    requires AllDigits(w)
    ensures IndexOf(sign + w, '.') == |sign + w|
  {
    DigitsHaveNoPoint(w);
    assert IndexOf(sign, '.') == |sign|;
    IndexOfAppend(sign, w, '.');
  }

  /** The two replacements applied to signed `toFixed` text with a fraction. */
  lemma TrimFractionPointed(sign: string, w: string, f: string)
    requires IndexOf(sign + w, '.') == |sign + w|
    ensures TrimFraction(sign + w + "." + f) == sign + TrimmedBody(w, f)
  {
    TrimFractionAt(sign + w, f);
    SignedTrimmedBody(sign, w, f);
  }

  lemma SignedTrimmedBody(sign: string, w: string, f: string)
    ensures (if TrimTrailing(f, '0') == "" then sign + w else sign + w + "." + TrimTrailing(f, '0')) == sign + TrimmedBody(w, f)
  {
    var t := TrimTrailing(f, '0');
    if t != "" {
      assert sign + w + "." + t == sign + (w + "." + t);
    }
  }

  /** Signed `toFixed` text without a fraction is left as it is. */
  lemma TrimFractionWhole(sign: string, w: string)
    requires sign == "" || sign == "-"
    requires AllDigits(w)
    ensures TrimFraction(sign + w) == sign + w
  {
    SignedDigitsHaveNoPoint(sign, w);
  }

  /** Text that starts with a digit reads the same under either sign whenever its unsigned reading agrees. */
  lemma SameSignedReading(sign: string, u: string, v: string)
    requires sign == "" || sign == "-"
    requires |u| > 0 && IsDigit(u[0]) && |v| > 0 && IsDigit(v[0])
    requires ParseUnsignedDecimal(u) == ParseUnsignedDecimal(v)
    ensures ParseDecimal(sign + u) == ParseDecimal(sign + v)
  {
    if sign == "-" {
      ReadNegative(u);
      ReadNegative(v);
    } else {
      ReadPlain(u);
      ReadPlain(v);
      assert sign + u == u && sign + v == v;
    }
  }

  /** Whole-unit formatting: `toFixed(0)` text is printed as it is. */
  lemma FormatWholeReadsBack(x: real)
    ensures TrimFraction(ToFixed(x, 0)) == ToFixed(x, 0)
  {
    var sign := if x < 0.0 then "-" else "";
    TrimFractionWhole(sign, NatToString(FixedUnits(x, 0)));
  }

  /** With decimals, trimming keeps the value of signed fixed text and leaves it shortest. */
  lemma TrimBodyReadsBack(sign: string, n: nat, d: nat)
    requires sign == "" || sign == "-"
    requires d > 0
    ensures ParseDecimal(TrimFraction(sign + FixedBody(n, d))) == ParseDecimal(sign + FixedBody(n, d))
    ensures IsShortestDecimal(TrimFraction(sign + FixedBody(n, d)))
  {
    var p := Pow10(d);
    var w := NatToString(WholeUnits(n, p));
    var f := PaddedDigits(FractionUnits(n, p), d);
    assert FixedBody(n, d) == w + "." + f;
    assert sign + FixedBody(n, d) == sign + w + "." + f;
    SignedDigitsHaveNoPoint(sign, w);
    TrimFractionPointed(sign, w, f);
    TrimmedBodyValue(w, f);
    TrimmedBodyShortest(sign, w, f);
    SameSignedReading(sign, TrimmedBody(w, f), w + "." + f);
  }

  /** With decimals, trimming keeps the value of the `toFixed` text and leaves it shortest. */
  lemma FormatPointedReadsBack(x: real, d: nat)
    requires d > 0
    ensures ParseDecimal(TrimFraction(ToFixed(x, d))) == ParseDecimal(ToFixed(x, d))
    ensures IsShortestDecimal(TrimFraction(ToFixed(x, d)))
  {
    TrimBodyReadsBack(if x < 0.0 then "-" else "", FixedUnits(x, d), d);
  }

  /**
   * `formatVolume(x, d)` reads back as `x` rounded to `d` decimals the way
   * `toFixed` rounds, and with decimals carries no redundant zero or point.
   */
  lemma FormatVolumeReadsBack(x: real, d: nat)
    ensures FormatVolume(Some(Utils.Finite(x)), d).Some?
    ensures ParseDecimal(FormatVolume(Some(Utils.Finite(x)), d).value) == Some(FixedValue(x, d))
    ensures d > 0 ==> IsShortestDecimal(FormatVolume(Some(Utils.Finite(x)), d).value)
  {
    var fixed := ToFixed(x, d);
    assert FormatVolume(Some(Utils.Finite(x)), d) == Some(TrimFraction(fixed));
    ToFixedReadsBack(x, d);
    if d == 0 {
      FormatWholeReadsBack(x);
    } else {
      FormatPointedReadsBack(x, d);
    }
  }

  /** Values are printed within half a unit in the `d`-th decimal place. */
  lemma FormatVolumeError(x: real, d: nat)
    ensures var r := ParseDecimal(FormatVolume(Some(Utils.Finite(x)), d).value);
      r.Some? && -1.0 / (2 * Pow10(d)) as real <= r.value - x <= 1.0 / (2 * Pow10(d)) as real
  {
    FormatVolumeReadsBack(x, d);
    FixedValueError(x, d);
  }

  /** The fraction digits of a whole number of units are all trimmed away. */
  lemma {:induction false} ZeroFractionTrims(d: nat)
    ensures TrimTrailing(PaddedDigits(0, d), '0') == ""
  {
    if d > 0 {
      var s := PaddedDigits(0, d);
      assert s[|s| - 1] == '0';
      assert s[..|s| - 1] == PaddedDigits(0, d - 1);
      ZeroFractionTrims(d - 1);
    }
  }

  /** A whole value scales to an exact number of units. */
  lemma WholeFixedUnits(n: nat, d: nat)
    ensures FixedUnits(n as real, d) == n * Pow10(d)
  {
    CastMul(n, Pow10(d));
  }

  /** Dividing an exact multiple leaves no remainder. */
  lemma ExactMultiple(n: nat, p: nat)
    requires p >= 1
    ensures WholeUnits(n * p, p) == n && FractionUnits(n * p, p) == 0
  {
    var m := n * p;
    var q := m / p;
    var r := m % p;
    assert m == q * p + r;
    assert 0 <= r < p;
    MultipleGap(n, q, p, r);
  }

  /** Two multiples of `p` closer than `p` apart are equal. */
  lemma MultipleGap(n: int, q: int, p: int, r: int)
    requires p >= 1 && 0 <= r < p
    requires n * p == q * p + r
    ensures n == q && r == 0
  {
    var k := n - q;
    assert k * p == r by {
      assert k * p == n * p - q * p;
    }
  }

  /** The `toFixed` digits of an exact number of whole units. */
  lemma WholeFixedBody(n: nat, d: nat)
    requires d > 0
    ensures FixedBody(n * Pow10(d), d) == NatToString(n) + "." + PaddedDigits(0, d)
  {
    ExactMultiple(n, Pow10(d));
  }

  /** `toFixed` of a whole value: its digits, a point and `d` zeros. */
  lemma WholeToFixed(n: nat, d: nat)
    requires d > 0
    ensures ToFixed(n as real, d) == NatToString(n) + "." + PaddedDigits(0, d)
  {
    WholeFixedUnits(n, d);
    WholeFixedBody(n, d);
    assert ToFixed(n as real, d) == "" + FixedBody(FixedUnits(n as real, d), d);
  }

  /** `toFixed(0)` of a whole value: its digits. */
  lemma WholeToFixedZero(n: nat)
    ensures ToFixed(n as real, 0) == NatToString(n)
  {
    WholeFixedUnits(n, 0);
    assert Pow10(0) == 1;
    assert FixedUnits(n as real, 0) == n;
    assert ToFixed(n as real, 0) == "" + FixedBody(n, 0);
  }

  /** Digits followed by a point and zeros only are trimmed back to the digits. */
  lemma TrimZeroFraction(w: string, d: nat)
    requires |w| > 0 && AllDigits(w)
    ensures TrimFraction(w + "." + PaddedDigits(0, d)) == w
  {
    ZeroFractionTrims(d);
    DigitsHaveNoPoint(w);
    TrimFractionAt(w, PaddedDigits(0, d));
  }

  /** The trimming of `toFixed` text of a whole value leaves its digits. */
  lemma TrimWholeFixed(n: nat, d: nat)
    ensures TrimFraction(ToFixed(n as real, d)) == NatToString(n)
  {
    if d == 0 {
      WholeToFixedZero(n);
      TrimFractionWhole("", NatToString(n));
      assert "" + NatToString(n) == NatToString(n);
    } else {
      WholeToFixed(n, d);
      TrimZeroFraction(NatToString(n), d);
    }
  }

  /** A whole volume is printed as its digits alone, whatever the number of decimals. */
  lemma FormatWholeVolume(n: nat, d: nat)
    ensures FormatVolume(Some(Utils.Finite(n as real)), d) == Some(NatToString(n))
  {
    TrimWholeFixed(n, d);
  }
}
