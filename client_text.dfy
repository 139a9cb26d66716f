/**
 * The browser client's text helpers for exports: reducing any text to
 * printable ASCII, quoting a CSV field, deriving a safe file name from a
 * free-text name, and joining the parts of a label.
 *
 * `normalize` stands for `String.prototype.normalize('NFKD')` (or for the
 * identity where the browser lacks it); none of the properties below depend
 * on what it does, except the ones that say so.
 */
module ClientText {
  import opened Wrappers
  import opened Text

  /** The two replacements made after normalising: micro and mu to `u`, en and em dash to `-`. */
  function NormalizeChar(c: char): (r: char)
    ensures c == '\U{00B5}' || c == '\U{03BC}' ==> r == 'u'
    ensures c == '\U{2013}' || c == '\U{2014}' ==> r == '-'
    ensures c != '\U{00B5}' && c != '\U{03BC}' && c != '\U{2013}' && c != '\U{2014}' ==> r == c
  {
    if c == '\U{00B5}' || c == '\U{03BC}' then 'u'
    else if c == '\U{2013}' || c == '\U{2014}' then '-'
    else c
  }

  function Replaced(s: string): (r: string)
    ensures |r| == |s| && forall i :: 0 <= i < |s| ==> r[i] == NormalizeChar(s[i])
  {
    if |s| == 0 then "" else [NormalizeChar(s[0])] + Replaced(s[1..])
  }

  /** Character codes 32 to 126. */
  predicate IsPrintableAscii(c: char) {
    32 <= c as int <= 126
  }

  predicate AllPrintableAscii(s: string) {
    forall i :: 0 <= i < |s| ==> IsPrintableAscii(s[i])
  }

  /** What the loop of `toAsciiString` appends for one character. */
  function FoldChar(c: char): string {
    if IsPrintableAscii(c) then [c]
    else if c as int == 10 || c as int == 13 then " "
    else ""
  }

  /** The loop of `toAsciiString` over `s`, as a left fold. */
  function Folded(s: string): (r: string)
    ensures |r| <= |s|
  {
    if |s| == 0 then "" else Folded(s[..|s| - 1]) + FoldChar(s[|s| - 1])
  }

  /** The text `toAsciiString(value)` returns, with `None` for `null` and `undefined`. */
  function AsciiText(value: Option<string>, normalize: string -> string): string {
    match value
    case None => ""
    case Some(t) => Folded(Replaced(normalize(t)))
  }

  /** `toAsciiString(value)`. */
  method ToAsciiString(value: Option<string>, normalize: string -> string) returns (result: string)
    ensures result == AsciiText(value, normalize)
  {
    if value.None? {
      return "";
    }
    var normalized := Replaced(normalize(value.value));
    result := "";
    var i := 0;
    while i < |normalized|
      invariant 0 <= i <= |normalized|
      invariant result == Folded(normalized[..i])
    {
      assert normalized[..i + 1][..i] == normalized[..i];
      var code := normalized[i] as int;
      if 32 <= code <= 126 {
        result := result + [normalized[i]];
      } else if code == 10 || code == 13 {
        result := result + " ";
      }
      i := i + 1;
    }
    assert normalized[..i] == normalized;
  }

  lemma {:induction false} FoldedAppend(a: string, b: string)
    ensures Folded(a + b) == Folded(a) + Folded(b)
  {
    if |b| == 0 {
      assert a + b == a;
    } else {
      var init := b[..|b| - 1];
      var z := FoldChar(b[|b| - 1]);
      assert (a + b)[..|a + b| - 1] == a + init && (a + b)[|a + b| - 1] == b[|b| - 1];
      FoldedAppend(a, init);
      assert Folded(a + b) == Folded(a) + Folded(init) + z;
      Regroup(Folded(a), Folded(init), z);
    }
  }

  /** Everything `toAsciiString` returns is printable ASCII. */
  lemma {:induction false} FoldedPrintable(s: string)
    ensures AllPrintableAscii(Folded(s))
  {
    if |s| > 0 {
      FoldedPrintable(s[..|s| - 1]);
    }
  }

  lemma AsciiTextPrintable(value: Option<string>, normalize: string -> string)
    ensures AllPrintableAscii(AsciiText(value, normalize))
  {
    if value.Some? {
      FoldedPrintable(Replaced(normalize(value.value)));
    }
  }

  /**
   * What becomes of each character after normalising: micro, mu and the
   * dashes are replaced, line breaks become spaces, printable ASCII is kept
   * and everything else is dropped.
   */
  lemma CharTable(c: char)
    ensures c == '\U{00B5}' || c == '\U{03BC}' ==> Folded(Replaced([c])) == "u"
    ensures c == '\U{2013}' || c == '\U{2014}' ==> Folded(Replaced([c])) == "-"
    ensures c == '\n' || c == '\r' ==> Folded(Replaced([c])) == " "
    ensures IsPrintableAscii(c) ==> Folded(Replaced([c])) == [c]
    ensures (!IsPrintableAscii(c) && c != '\n' && c != '\r' && c != '\U{00B5}' && c != '\U{03BC}'
             && c != '\U{2013}' && c != '\U{2014}') ==> Folded(Replaced([c])) == ""
  {
    assert Replaced([c]) == [NormalizeChar(c)];
    assert [NormalizeChar(c)][..0] == [];
  }

  /** The fold works character by character. */
  lemma {:induction false} FoldedChars(s: string)
    ensures |s| > 0 ==> Folded(Replaced(s)) == Folded(Replaced([s[0]])) + Folded(Replaced(s[1..]))
  {
    if |s| > 0 {
      assert Replaced(s) == Replaced([s[0]]) + Replaced(s[1..]);
      FoldedAppend(Replaced([s[0]]), Replaced(s[1..]));
    }
  }

  /** Printable ASCII holds none of the replaced characters. */
  lemma ReplacedKeepsPrintable(s: string)
    requires AllPrintableAscii(s)
    ensures Replaced(s) == s
  {
    forall i | 0 <= i < |s| ensures Replaced(s)[i] == s[i] {
      assert IsPrintableAscii(s[i]);
    }
  }

  /** The loop keeps printable ASCII text as it is. */
  lemma {:induction false} FoldedKeepsPrintable(s: string)
    requires AllPrintableAscii(s)
    ensures Folded(s) == s
  {
    if |s| > 0 {
      var front := s[..|s| - 1];
      assert AllPrintableAscii(front) by {
        forall i | 0 <= i < |front| ensures IsPrintableAscii(front[i]) {
          assert front[i] == s[i];
        }
      }
      FoldedKeepsPrintable(front);
      assert IsPrintableAscii(s[|s| - 1]);
      assert front + [s[|s| - 1]] == s;
    }
  }

  /** Printable ASCII that normalising leaves alone comes back unchanged. */
  lemma AsciiTextKeepsPrintable(s: string, normalize: string -> string)
    requires AllPrintableAscii(s) && normalize(s) == s
    ensures AsciiText(Some(s), normalize) == s
  {
    ReplacedKeepsPrintable(s);
    FoldedKeepsPrintable(s);
  }

  /** Applying `toAsciiString` twice changes nothing, when normalising leaves ASCII alone. */
  lemma AsciiTextIdempotent(value: Option<string>, normalize: string -> string)
    requires normalize(AsciiText(value, normalize)) == AsciiText(value, normalize)
    ensures AsciiText(Some(AsciiText(value, normalize)), normalize) == AsciiText(value, normalize)
  {
    AsciiTextPrintable(value, normalize);
    AsciiTextKeepsPrintable(AsciiText(value, normalize), normalize);
  }

  // ---------------------------------------------------------------- CSV

  /** `s.replace(/"/g, '""')`. */
  function DoubleQuotes(s: string): (r: string)
    ensures |r| >= |s|
  {
    if |s| == 0 then ""
    else if s[0] == '"' then "\"\"" + DoubleQuotes(s[1..])
    else [s[0]] + DoubleQuotes(s[1..])
  }

  /** Whether `s` holds a character of the class `[",\r\n]`. */
  predicate NeedsQuotes(s: string) {
    exists i :: 0 <= i < |s| && (s[i] == '"' || s[i] == ',' || s[i] == '\r' || s[i] == '\n')
  }

  /** `escapeCsvValue(value)`: the ASCII text, quoted with inner quotes doubled when it needs quoting. */
  function EscapeCsvValue(value: Option<string>, normalize: string -> string): (r: string)
    ensures NeedsQuotes(AsciiText(value, normalize)) ==> |r| >= 2 && r[0] == '"' && r[|r| - 1] == '"'
    ensures !NeedsQuotes(AsciiText(value, normalize)) ==> r == AsciiText(value, normalize)
  {
    var ascii := AsciiText(value, normalize);
    var escaped := DoubleQuotes(ascii);
    if NeedsQuotes(ascii) then "\"" + escaped + "\""
    else
      DoubleQuotesNone(ascii);
      escaped
  }

  /** Inner quotes undoubled; a lone quote is malformed. */
  function Undouble(s: string): Option<string> {
    if |s| == 0 then Some("")
    else if s[0] != '"' then
      match Undouble(s[1..])
      case None => None
      case Some(t) => Some([s[0]] + t)
    else if |s| >= 2 && s[1] == '"' then
      match Undouble(s[2..])
      case None => None
      case Some(t) => Some("\"" + t)
    else None
  }

  /**
   * A CSV field read the way RFC 4180 (section 2) describes: either quoted,
   * with inner quotes doubled, or free of quotes, commas and line breaks.
   */
  function ParseCsvField(s: string): Option<string> {
    if |s| >= 2 && s[0] == '"' && s[|s| - 1] == '"' then Undouble(s[1..|s| - 1])
    else if NeedsQuotes(s) then None
    else Some(s)
  }

  lemma {:induction false} UndoubleDoubled(s: string)
    ensures Undouble(DoubleQuotes(s)) == Some(s)
  {
    if |s| > 0 {
      UndoubleDoubled(s[1..]);
      var d := DoubleQuotes(s);
      if s[0] == '"' {
        assert d[2..] == DoubleQuotes(s[1..]);
        assert "\"" + s[1..] == s;
      } else {
        assert d[1..] == DoubleQuotes(s[1..]);
        assert [s[0]] + s[1..] == s;
      }
    }
  }

  /** The text needs no quotes exactly when it holds no quote mark and no comma. */
  lemma AsciiNeedsQuotes(value: Option<string>, normalize: string -> string)
    ensures var a := AsciiText(value, normalize);
      NeedsQuotes(a) <==> exists i :: 0 <= i < |a| && (a[i] == '"' || a[i] == ',')
  {
    AsciiTextPrintable(value, normalize);
  }

  /** Unquoted text is free of quote marks, so doubling leaves it alone. */
  lemma {:induction false} DoubleQuotesNone(s: string)
    requires forall i :: 0 <= i < |s| ==> s[i] != '"'
    ensures DoubleQuotes(s) == s
  {
    if |s| > 0 {
      DoubleQuotesNone(s[1..]);
      assert [s[0]] + s[1..] == s;
    }
  }

  /** Reading the escaped field gives back the ASCII text. */
  lemma CsvRoundTrip(value: Option<string>, normalize: string -> string)
    ensures ParseCsvField(EscapeCsvValue(value, normalize)) == Some(AsciiText(value, normalize))
  {
    var a := AsciiText(value, normalize);
    var r := EscapeCsvValue(value, normalize);
    if NeedsQuotes(a) {
      assert r[1..|r| - 1] == DoubleQuotes(a);
      UndoubleDoubled(a);
    } else {
      assert forall i :: 0 <= i < |a| ==> a[i] != '"';
      DoubleQuotesNone(a);
      assert r == a;
      assert |a| > 0 ==> a[0] != '"';
    }
  }

  // ---------------------------------------------------------- file names

  /** The class `[a-z0-9]`. */
  predicate IsSlugChar(c: char) {
    IsLowerAscii(c) || IsDigit(c)
  }

  predicate SlugCharset(s: string) {
    forall i :: 0 <= i < |s| ==> IsSlugChar(s[i]) || s[i] == '-'
  }

  predicate NoDoubleDash(s: string) {
    forall i :: 0 <= i < |s| - 1 ==> s[i] != '-' || s[i + 1] != '-'
  }

  /** A name safe for a file: `[a-z0-9-]`, no dash at either end and no two dashes in a row. */
  predicate IsSafeName(s: string) {
    && |s| > 0
    && SlugCharset(s)
    && NoDoubleDash(s)
    && s[0] != '-' && s[|s| - 1] != '-'
  }

  /** `s.replace(/[^a-z0-9]+/g, '-')`: each maximal run outside `[a-z0-9]` becomes one dash. */
  function Dashed(s: string): (r: string)
    ensures |s| > 0 && IsSlugChar(s[0]) ==> |r| > 0 && r[0] == s[0]
    ensures |s| > 0 && !IsSlugChar(s[0]) ==> |r| > 0 && r[0] == '-'
  {
    if |s| == 0 then ""
    else if IsSlugChar(s[0]) then [s[0]] + Dashed(s[1..])
    else if |s| > 1 && !IsSlugChar(s[1]) then Dashed(s[1..])
    else "-" + Dashed(s[1..])
  }

  /** The dashed text holds only letters, digits and dashes, never two dashes in a row. */
  lemma {:induction false} DashedShape(s: string)
    ensures SlugCharset(Dashed(s)) && NoDoubleDash(Dashed(s))
  {
    if |s| > 0 {
      DashedShape(s[1..]);
      var u := Dashed(s[1..]);
      if IsSlugChar(s[0]) {
        ConsShape(s[0], u);
      } else if !(|s| > 1 && !IsSlugChar(s[1])) {
        ConsShape('-', u);
      }
    }
  }

  /** A letter, digit or dash in front of a well-formed text keeps it well formed unless two dashes meet. */
  lemma ConsShape(c: char, u: string)
    requires IsSlugChar(c) || c == '-'
    requires SlugCharset(u) && NoDoubleDash(u)
    requires c == '-' ==> |u| == 0 || u[0] != '-'
    ensures SlugCharset([c] + u) && NoDoubleDash([c] + u)
  {
    var r := [c] + u;
    forall i | 0 <= i < |r| ensures IsSlugChar(r[i]) || r[i] == '-' {
      if i > 0 {
        assert r[i] == u[i - 1];
      }
    }
    forall i | 0 <= i < |r| - 1 ensures r[i] != '-' || r[i + 1] != '-' {
      assert r[i + 1] == u[i];
      if i > 0 {
        assert r[i] == u[i - 1];
      }
    }
  }

  /** One character: a letter or digit stays, anything else is a dash. */
  lemma DashedOne(c: char)
    ensures Dashed([c]) == if IsSlugChar(c) then [c] else "-"
  {
    assert [c][1..] == "";
  }

  /**
   * Splitting a text where a letter or digit sits at the seam: the two halves
   * are dashed apart. With `DashedOne` and `DashedMerge` this determines
   * `Dashed` on every text.
   */
  lemma DashedAppend(a: string, x: string)
    requires |a| == 0 || |x| == 0 || IsSlugChar(a[|a| - 1]) || IsSlugChar(x[0])
    ensures Dashed(a + x) == Dashed(a) + Dashed(x)
  {
    if |a| == 0 {
      assert a + x == x;
    } else if |x| == 0 {
      assert a + x == a;
    } else if IsSlugChar(x[0]) {
      DashedBeforeSlug(a, x);
    } else {
      DashedAfterSlug(a, x);
    }
  }

  /** `DashedAppend` where the second half starts with a letter or digit. */
  lemma {:induction false} DashedBeforeSlug(a: string, x: string)
    requires |x| > 0 && IsSlugChar(x[0])
    ensures Dashed(a + x) == Dashed(a) + Dashed(x)
  {
    if |a| == 0 {
      assert a + x == x;
    } else if |a| == 1 {
      var c := a[0];
      assert a == [c];
      DashedOne(c);
      if IsSlugChar(c) {
        DashedConsSlug(c, x);
      } else {
        DashedConsEnd(c, x);
      }
    } else {
      var t := a[1..];
      assert a == [a[0]] + t;
      DashedBeforeSlug(t, x);
      DashedStep(a[0], t, x);
    }
  }

  /** `DashedAppend` where the first half ends with a letter or digit. */
  lemma {:induction false} DashedAfterSlug(a: string, x: string)
    requires |a| > 0 && IsSlugChar(a[|a| - 1])
    ensures Dashed(a + x) == Dashed(a) + Dashed(x)
  {
    if |a| == 1 {
      var c := a[0];
      assert a == [c];
      DashedConsSlug(c, x);
      DashedOne(c);
    } else {
      var t := a[1..];
      assert a == [a[0]] + t && t[|t| - 1] == a[|a| - 1];
      DashedAfterSlug(t, x);
      DashedStep(a[0], t, x);
    }
  }

  /** The inductive step shared by the two halves of `DashedAppend`. */
  lemma DashedStep(c: char, t: string, x: string)
    requires |t| > 0
    requires Dashed(t + x) == Dashed(t) + Dashed(x)
    ensures Dashed([c] + t + x) == Dashed([c] + t) + Dashed(x)
  {
    assert [c] + t + x == [c] + (t + x);
    assert (t + x)[0] == t[0];
    if IsSlugChar(c) {
      StepSlug(c, t, x);
    } else if IsSlugChar(t[0]) {
      StepEnd(c, t, x);
    } else {
      DashedConsRun(c, t);
      DashedConsRun(c, t + x);
    }
  }

  lemma StepSlug(c: char, t: string, x: string)
    requires IsSlugChar(c)
    requires Dashed(t + x) == Dashed(t) + Dashed(x)
    ensures Dashed([c] + (t + x)) == Dashed([c] + t) + Dashed(x)
  {
    DashedConsSlug(c, t);
    DashedConsSlug(c, t + x);
    Regroup([c], Dashed(t), Dashed(x));
  }

  lemma StepEnd(c: char, t: string, x: string)
    requires !IsSlugChar(c) && |t| > 0 && IsSlugChar(t[0])
    requires Dashed(t + x) == Dashed(t) + Dashed(x)
    ensures Dashed([c] + (t + x)) == Dashed([c] + t) + Dashed(x)
  {
    assert (t + x)[0] == t[0];
    DashedConsEnd(c, t);
    DashedConsEnd(c, t + x);
    Regroup("-", Dashed(t), Dashed(x));
  }

  lemma Regroup(u: string, v: string, w: string)
    ensures u + (v + w) == (u + v) + w
  {
  }

  /**
   * Splitting a text inside a run of other characters: the run's two halves
   * give one dash, not two.
   */
  lemma {:induction false} DashedMerge(a: string, x: string)
    requires |a| > 0 && |x| > 0 && !IsSlugChar(a[|a| - 1]) && !IsSlugChar(x[0])
    ensures Dashed(a + x) == Dashed(a) + Dashed(x)[1..]
  {
    var c := a[0];
    var t := a[1..];
    assert a == [c] + t && a + x == [c] + (t + x);
    if |t| == 0 {
      DashedOne(c);
      DashedConsRun(c, x);
      assert Dashed(x) == "-" + Dashed(x)[1..];
    } else {
      assert (t + x)[0] == t[0] && t[|t| - 1] == a[|a| - 1];
      DashedMerge(t, x);
      if IsSlugChar(c) {
        DashedConsSlug(c, t);
        DashedConsSlug(c, t + x);
        Regroup([c], Dashed(t), Dashed(x)[1..]);
      } else if IsSlugChar(t[0]) {
        DashedConsEnd(c, t);
        DashedConsEnd(c, t + x);
        Regroup("-", Dashed(t), Dashed(x)[1..]);
      } else {
        DashedConsRun(c, t);
        DashedConsRun(c, t + x);
      }
    }
  }

  /**
   * Words of letters and digits around a run of other characters come out
   * as the two words joined by a single dash: "my  file" gives "my-file".
   */
  lemma DashedWords(u: string, g: string, v: string)
    requires forall i :: 0 <= i < |u| ==> IsSlugChar(u[i])
    requires |g| > 0 && forall i :: 0 <= i < |g| ==> !IsSlugChar(g[i])
    requires forall i :: 0 <= i < |v| ==> IsSlugChar(v[i])
    ensures Dashed(u + g + v) == u + "-" + v
  {
    DashedSlugOnly(u);
    DashedSlugOnly(v);
    DashedRun(g);
    DashedAppend(u, g);
    assert |v| > 0 ==> IsSlugChar(v[0]);
    DashedAppend(u + g, v);
  }

  /** A text of letters and digits only is unchanged. */
  lemma {:induction false} DashedSlugOnly(u: string)
    requires forall i :: 0 <= i < |u| ==> IsSlugChar(u[i])
    ensures Dashed(u) == u
  {
    if |u| > 0 {
      assert u == [u[0]] + u[1..];
      DashedSlugOnly(u[1..]);
      DashedConsSlug(u[0], u[1..]);
    }
  }

  /** A nonempty run with no letter or digit becomes one dash. */
  lemma {:induction false} DashedRun(g: string)
    requires |g| > 0 && forall i :: 0 <= i < |g| ==> !IsSlugChar(g[i])
    ensures Dashed(g) == "-"
  {
    assert g == [g[0]] + g[1..];
    if |g| == 1 {
      DashedOne(g[0]);
    } else {
      DashedRun(g[1..]);
      DashedConsRun(g[0], g[1..]);
    }
  }

  /** A letter or digit in front is kept. */
  lemma DashedConsSlug(c: char, u: string)
    requires IsSlugChar(c)
    ensures Dashed([c] + u) == [c] + Dashed(u)
  {
    assert ([c] + u)[1..] == u;
  }

  /** Another character in front of a further one joins its run. */
  lemma DashedConsRun(c: char, u: string)
    requires !IsSlugChar(c) && |u| > 0 && !IsSlugChar(u[0])
    ensures Dashed([c] + u) == Dashed(u)
  {
    assert ([c] + u)[1..] == u && ([c] + u)[1] == u[0];
  }

  /** Another character that ends its run becomes a dash. */
  lemma DashedConsEnd(c: char, u: string)
    requires !IsSlugChar(c) && (|u| == 0 || IsSlugChar(u[0]))
    ensures Dashed([c] + u) == "-" + Dashed(u)
  {
    assert ([c] + u)[1..] == u;
    if |u| > 0 {
      assert ([c] + u)[1] == u[0];
    }
  }

  /** `s.replace(/^-+/, '')`. */
  function TrimLeadingDashes(s: string): (r: string)
    ensures |r| <= |s| && r == s[|s| - |r|..]
    ensures |r| > 0 ==> r[0] != '-'
    ensures forall i :: 0 <= i < |s| - |r| ==> s[i] == '-'
  {
    if |s| > 0 && s[0] == '-' then TrimLeadingDashes(s[1..]) else s
  }

  /** The slug `buildSafeFilenameBase` derives from a name, before the fallback. */
  function SafeSlug(name: Option<string>, normalize: string -> string): string {
    TrimTrailing(TrimLeadingDashes(Dashed(Lower(AsciiText(name, normalize)))), '-')
  }

  /** The letters and digits of `s`, in order. */
  function SlugChars(s: string): string {
    if |s| == 0 then "" else if IsSlugChar(s[0]) then [s[0]] + SlugChars(s[1..]) else SlugChars(s[1..])
  }

  lemma {:induction false} SlugCharsAppend(a: string, b: string)
    ensures SlugChars(a + b) == SlugChars(a) + SlugChars(b)
  {
    if |a| > 0 {
      assert (a + b)[1..] == a[1..] + b;
      SlugCharsAppend(a[1..], b);
    } else {
      assert a + b == b;
    }
  }

  /** Dashes hold no letter or digit. */
  lemma {:induction false} SlugCharsOfDashes(s: string)
    requires forall i :: 0 <= i < |s| ==> s[i] == '-'
    ensures SlugChars(s) == ""
  {
    if |s| > 0 {
      SlugCharsOfDashes(s[1..]);
    }
  }

  /** Replacing runs by dashes keeps every letter and digit, in order. */
  lemma {:induction false} DashedKeepsSlugChars(s: string)
    ensures SlugChars(Dashed(s)) == SlugChars(s)
  {
    if |s| > 0 {
      DashedKeepsSlugChars(s[1..]);
      if IsSlugChar(s[0]) {
        assert ([s[0]] + Dashed(s[1..]))[1..] == Dashed(s[1..]);
      } else if !(|s| > 1 && !IsSlugChar(s[1])) {
        assert ("-" + Dashed(s[1..]))[1..] == Dashed(s[1..]);
      }
    }
  }

  /** Trimming leading dashes keeps every letter and digit. */
  lemma TrimLeadingKeepsSlugChars(s: string)
    ensures SlugChars(TrimLeadingDashes(s)) == SlugChars(s)
  {
    var u := TrimLeadingDashes(s);
    var k := |s| - |u|;
    assert s == s[..k] + u;
    SlugCharsAppend(s[..k], u);
    SlugCharsOfDashes(s[..k]);
  }

  /** Trimming trailing dashes keeps every letter and digit. */
  lemma TrimTrailingKeepsSlugChars(u: string)
    ensures SlugChars(TrimTrailing(u, '-')) == SlugChars(u)
  {
    var t := TrimTrailing(u, '-');
    assert u == t + u[|t|..];
    SlugCharsAppend(t, u[|t|..]);
    SlugCharsOfDashes(u[|t|..]);
  }

  /** The slug keeps exactly the letters and digits of the lower-cased ASCII text. */
  lemma SafeSlugKeepsSlugChars(name: Option<string>, normalize: string -> string)
    ensures SlugChars(SafeSlug(name, normalize)) == SlugChars(Lower(AsciiText(name, normalize)))
  {
    var d := Dashed(Lower(AsciiText(name, normalize)));
    DashedKeepsSlugChars(Lower(AsciiText(name, normalize)));
    TrimLeadingKeepsSlugChars(d);
    TrimTrailingKeepsSlugChars(TrimLeadingDashes(d));
  }

  /** A slice of a well-formed dashed text is still well formed. */
  lemma SliceShape(s: string, lo: nat, hi: nat)
    requires lo <= hi <= |s|
    requires SlugCharset(s) && NoDoubleDash(s)
    ensures SlugCharset(s[lo..hi]) && NoDoubleDash(s[lo..hi])
  {
    var t := s[lo..hi];
    forall i | 0 <= i < |t| ensures IsSlugChar(t[i]) || t[i] == '-' {
      assert t[i] == s[lo + i];
    }
    forall i | 0 <= i < |t| - 1 ensures t[i] != '-' || t[i + 1] != '-' {
      assert t[i] == s[lo + i] && t[i + 1] == s[lo + i + 1];
    }
  }

  /** A nonempty slug is a safe name. */
  lemma SafeSlugShape(name: Option<string>, normalize: string -> string)
    ensures SafeSlug(name, normalize) != "" ==> IsSafeName(SafeSlug(name, normalize))
  {
    DashedShape(Lower(AsciiText(name, normalize)));
    TrimmedDashesShape(Dashed(Lower(AsciiText(name, normalize))));
  }

  /** A well-formed dashed text without its outer dashes is a safe name, or empty. */
  lemma TrimmedDashesShape(d: string)
    requires SlugCharset(d) && NoDoubleDash(d)
    ensures var t := TrimTrailing(TrimLeadingDashes(d), '-');
      t != "" ==> IsSafeName(t)
  {
    var u := TrimLeadingDashes(d);
    var t := TrimTrailing(u, '-');
    SliceShape(d, |d| - |u|, |d|);
    SliceShape(u, 0, |t|);
    if |t| > 0 {
      assert t[0] == u[0];
    }
  }

  /** A text of letters, digits and dashes, none at the front, with no letter or digit is empty. */
  lemma NoSlugCharsEmpty(t: string)
    requires SlugCharset(t) && (|t| > 0 ==> t[0] != '-')
    requires SlugChars(t) == ""
    ensures t == ""
  {
  }

  /** The slug is empty exactly when the name has no ASCII letter or digit. */
  lemma SafeSlugEmpty(name: Option<string>, normalize: string -> string)
    ensures SafeSlug(name, normalize) == "" <==> SlugChars(Lower(AsciiText(name, normalize))) == ""
  {
    SafeSlugKeepsSlugChars(name, normalize);
    SafeSlugShape(name, normalize);
    var t := SafeSlug(name, normalize);
    if SlugChars(t) == "" && t != "" {
      NoSlugCharsEmpty(t);
    }
  }

  /** `buildSafeFilenameBase(name, fallback)`. */
  function BuildSafeFilenameBase(name: Option<string>, fallback: string, normalize: string -> string): (r: string)
    ensures SlugChars(Lower(AsciiText(name, normalize))) == "" ==> r == fallback
    ensures SlugChars(Lower(AsciiText(name, normalize))) != "" ==>
      IsSafeName(r) && SlugChars(r) == SlugChars(Lower(AsciiText(name, normalize)))
  {
    var slug := SafeSlug(name, normalize);
    SafeSlugEmpty(name, normalize);
    SafeSlugShape(name, normalize);
    SafeSlugKeepsSlugChars(name, normalize);
    if slug == "" then fallback else slug
  }

  /**
   * Two words of letters and digits separated by other characters give the
   * words joined by one dash: a name lowering to "my  file" gives "my-file".
   */
  lemma SafeFilenameWords(name: Option<string>, fallback: string, normalize: string -> string,
                          u: string, g: string, v: string)
    requires Lower(AsciiText(name, normalize)) == u + g + v
    requires |u| > 0 && forall i :: 0 <= i < |u| ==> IsSlugChar(u[i])
    requires |g| > 0 && forall i :: 0 <= i < |g| ==> !IsSlugChar(g[i])
    requires |v| > 0 && forall i :: 0 <= i < |v| ==> IsSlugChar(v[i])
    ensures BuildSafeFilenameBase(name, fallback, normalize) == u + "-" + v
  {
    var d := u + "-" + v;
    DashedWords(u, g, v);
    assert d[0] == u[0] && d[|d| - 1] == v[|v| - 1];
    assert TrimLeadingDashes(d) == d;
    assert TrimTrailing(d, '-') == d;
    assert SafeSlug(name, normalize) == d;
  }

  /** A safe name is printable ASCII without capitals. */
  lemma SafeNameIsLowerAscii(s: string)
    requires IsSafeName(s)
    ensures AllPrintableAscii(s) && Lower(s) == s
  {
    forall i | 0 <= i < |s| ensures IsPrintableAscii(s[i]) && LowerChar(s[i]) == s[i] {
      assert IsSlugChar(s[i]) || s[i] == '-';
    }
  }

  /** Dashing leaves a text alone that is already made of letters, digits and single dashes. */
  lemma {:induction false} DashedKeepsSafe(s: string)
    requires SlugCharset(s) && NoDoubleDash(s)
    ensures Dashed(s) == s
  {
    if |s| > 0 {
      SliceShape(s, 1, |s|);
      DashedKeepsSafe(s[1..]);
      if !IsSlugChar(s[0]) {
        assert s[0] == '-';
        assert |s| > 1 ==> s[1] != '-' && IsSlugChar(s[1]);
      }
      assert [s[0]] + s[1..] == s;
    }
  }

  /** A safe name that normalising leaves alone is its own file name. */
  lemma SafeNameIdempotent(s: string, fallback: string, normalize: string -> string)
    requires IsSafeName(s) && normalize(s) == s
    ensures BuildSafeFilenameBase(Some(s), fallback, normalize) == s
  {
    SafeNameIsLowerAscii(s);
    AsciiTextKeepsPrintable(s, normalize);
    DashedKeepsSafe(s);
  }

  // --------------------------------------------------------------- labels

  /** `(part ?? '').toString().trim()`. */
  function LabelPart(part: Option<string>): (r: string)
    ensures r == "" || IsTrimmedPart(r)
  {
    match part
    case None => ""
    case Some(t) => Strip(JavaScript, t)
  }

  /** A nonempty text with no whitespace at either end. */
  predicate IsTrimmedPart(t: string) {
    |t| > 0 && !IsWhitespace(JavaScript, t[0]) && !IsWhitespace(JavaScript, t[|t| - 1])
  }

  /** The trimmed parts that are not empty, in order. */
  function KeptParts(parts: seq<Option<string>>): (r: seq<string>)
    ensures forall i :: 0 <= i < |r| ==> IsTrimmedPart(r[i])
  {
    if |parts| == 0 then []
    else
      var head := LabelPart(parts[0]);
      var rest := KeptParts(parts[1..]);
      if head == "" then rest else [head] + rest
  }

  /** `ts.join(' - ')`. */
  function JoinDash(ts: seq<string>): string {
    if |ts| == 0 then "" else if |ts| == 1 then ts[0] else ts[0] + " - " + JoinDash(ts[1..])
  }

  /** Two labels put together the way `join` would have. */
  function Joined(a: string, b: string): string {
    if a == "" then b else if b == "" then a else a + " - " + b
  }

  /** `joinLabelParts(parts)`. */
  function JoinLabelParts(parts: seq<Option<string>>): (r: string)
    ensures r == "" <==> forall i :: 0 <= i < |parts| ==> LabelPart(parts[i]) == ""
    ensures |r| > 0 ==> IsTrimmedPart(r)
  {
    var kept := KeptParts(parts);
    KeptPartsEmpty(parts);
    JoinDashEdges(kept);
    JoinDash(kept)
  }

  lemma {:induction false} KeptPartsEmpty(parts: seq<Option<string>>)
    ensures KeptParts(parts) == [] <==> forall i :: 0 <= i < |parts| ==> LabelPart(parts[i]) == ""
  {
    if |parts| > 0 {
      var rest := parts[1..];
      KeptPartsEmpty(rest);
      if LabelPart(parts[0]) == "" {
        assert KeptParts(parts) == KeptParts(rest);
        assert (forall i :: 0 <= i < |parts| ==> LabelPart(parts[i]) == "")
          <==> (forall i :: 0 <= i < |rest| ==> LabelPart(rest[i]) == "") by {
          assert forall i :: 1 <= i < |parts| ==> parts[i] == rest[i - 1];
        }
      } else {
        assert KeptParts(parts) == [LabelPart(parts[0])] + KeptParts(rest);
      }
    }
  }

  /** Joining trimmed parts gives a trimmed label, empty only for no parts. */
  lemma {:induction false} JoinDashEdges(ts: seq<string>)
    requires forall i :: 0 <= i < |ts| ==> IsTrimmedPart(ts[i])
    ensures JoinDash(ts) == "" <==> ts == []
    ensures |JoinDash(ts)| > 0 ==> IsTrimmedPart(JoinDash(ts))
  {
    if |ts| > 1 {
      JoinDashEdges(ts[1..]);
      assert IsTrimmedPart(ts[0]);
    } else if |ts| == 1 {
      assert IsTrimmedPart(ts[0]);
    }
  }

  lemma {:induction false} KeptPartsAppend(ps: seq<Option<string>>, qs: seq<Option<string>>)
    ensures KeptParts(ps + qs) == KeptParts(ps) + KeptParts(qs)
  {
    if |ps| == 0 {
      assert ps + qs == qs;
    } else {
      assert (ps + qs)[1..] == ps[1..] + qs;
      KeptPartsAppend(ps[1..], qs);
    }
  }

  /** A single part joins to itself, trimmed. */
  lemma JoinLabelPartsOne(p: Option<string>)
    ensures JoinLabelParts([p]) == LabelPart(p)
  {
    assert [p][1..] == [] && [p][0] == p;
    assert KeptParts([p]) == if LabelPart(p) == "" then [] else [LabelPart(p)];
  }

  /** Labels built from two lists of parts are the two labels joined. */
  lemma JoinLabelPartsAppend(ps: seq<Option<string>>, qs: seq<Option<string>>)
    ensures JoinLabelParts(ps + qs) == Joined(JoinLabelParts(ps), JoinLabelParts(qs))
  {
    KeptPartsAppend(ps, qs);
    JoinNonEmptyAppend(KeptParts(ps), KeptParts(qs));
  }

  /** Joining nonempty parts splits at any point into two joins. */
  lemma {:induction false} JoinNonEmptyAppend(a: seq<string>, b: seq<string>)
    requires forall i :: 0 <= i < |a| ==> IsTrimmedPart(a[i])
    requires forall i :: 0 <= i < |b| ==> IsTrimmedPart(b[i])
    ensures JoinDash(a + b) == Joined(JoinDash(a), JoinDash(b))
  {
    if |a| == 0 {
      assert a + b == b;
    } else if |a| == 1 {
      assert (a + b)[1..] == b;
      JoinDashEdges(b);
    } else {
      var tail := a[1..];
      assert (a + b)[1..] == tail + b;
      assert JoinDash(a + b) == a[0] + " - " + JoinDash(tail + b);
      assert JoinDash(a) == a[0] + " - " + JoinDash(tail);
      JoinNonEmptyAppend(tail, b);
      JoinDashEdges(tail);
      JoinedAfterHead(a[0], JoinDash(tail), JoinDash(b));
    }
  }

  /** Putting a head part before a join of two labels, the first of them not empty. */
  lemma JoinedAfterHead(h: string, x: string, y: string)
    requires x != ""
    ensures h + " - " + Joined(x, y) == Joined(h + " - " + x, y)
  {
    if y != "" {
      assert h + " - " + (x + " - " + y) == (h + " - " + x) + " - " + y;
    }
  }

  /** A label used as a single part comes back as it is. */
  lemma JoinLabelPartsIdempotent(parts: seq<Option<string>>)
    ensures JoinLabelParts([Some(JoinLabelParts(parts))]) == JoinLabelParts(parts)
  {
    var r := JoinLabelParts(parts);
    StripNoEdges(JavaScript, r);
    assert KeptParts([Some(r)][1..]) == [];
  }
}
