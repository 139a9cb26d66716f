/**
 * The browser client's molar-ratio handling: reading a custom ratio such as
 * `3:2:1` typed by the user, and deriving the ratio mode and ratio sent to the
 * transfection-metrics endpoint from a prep's draft.
 */
module ClientRatio {
  import opened Wrappers
  import opened Text
  import Constants
  import Utils
  import Routes
  import ClientNumbers

  /** The characters of the class `[,:\s]`, with `\s` JavaScript's Unicode whitespace. */
  predicate IsRatioSeparator(c: char) {
    c == ',' || c == ':' || IsWhitespace(JavaScript, c)
  }

  predicate NoSeparator(s: string) {
    forall i :: 0 <= i < |s| ==> !IsRatioSeparator(s[i])
  }

  /**
   * `s.split(/[,:\s]+/)`: the pieces between maximal runs of separators; a
   * run at the start or at the end yields an empty first or last piece.
   */
  function SplitRatio(s: string): (r: seq<string>)
    ensures |r| >= 1
    ensures forall i :: 0 <= i < |r| ==> NoSeparator(r[i])
    ensures |s| > 0 && IsRatioSeparator(s[0]) ==> r[0] == ""
  {
    if |s| == 0 then [""]
    else
      var rest := SplitRatio(s[1..]);
      if IsRatioSeparator(s[0]) then
        if |s| > 1 && IsRatioSeparator(s[1]) then rest else [""] + rest
      else
        [[s[0]] + rest[0]] + rest[1..]
  }

  /** The pieces written one after the other. */
  function Flatten(ts: seq<string>): string {
    if |ts| == 0 then "" else ts[0] + Flatten(ts[1..])
  }

  /** `s` without its separators. */
  function NonSeparators(s: string): string {
    if |s| == 0 then ""
    else if IsRatioSeparator(s[0]) then NonSeparators(s[1..])
    else [s[0]] + NonSeparators(s[1..])
  }

  /** Splitting loses no character but the separators. */
  lemma {:induction false} SplitKeepsText(s: string)
    ensures Flatten(SplitRatio(s)) == NonSeparators(s)
  {
    if |s| > 0 {
      var rest := SplitRatio(s[1..]);
      SplitKeepsText(s[1..]);
      assert Flatten(rest) == rest[0] + Flatten(rest[1..]);
      if IsRatioSeparator(s[0]) {
        if !(|s| > 1 && IsRatioSeparator(s[1])) {
          assert Flatten([""] + rest) == "" + Flatten(rest);
        }
      } else {
        var r := [[s[0]] + rest[0]] + rest[1..];
        assert r[1..] == rest[1..];
        assert Flatten(r) == [s[0]] + rest[0] + Flatten(rest[1..]);
      }
    }
  }

  /** Text without separators is a single piece. */
  lemma {:induction false} SplitWord(w: string)
    requires NoSeparator(w)
    ensures SplitRatio(w) == [w]
  {
    if |w| > 0 {
      SplitWord(w[1..]);
      assert [w[0]] + w[1..] == w;
    }
  }

  /** A piece followed by one separator comes off the front whole. */
  lemma {:induction false} SplitWordThen(w: string, c: char, r: string)
    requires NoSeparator(w) && IsRatioSeparator(c)
    requires |r| > 0 ==> !IsRatioSeparator(r[0])
    ensures SplitRatio(w + [c] + r) == [w] + SplitRatio(r)
  {
    var s := w + [c] + r;
    if |w| == 0 {
      assert s == [c] + r;
      assert s[1..] == r;
    } else {
      assert s[1..] == w[1..] + [c] + r;
      SplitWordThen(w[1..], c, r);
      assert [w[0]] + w[1..] == w;
    }
  }

  /** The pieces joined by the separator `c`. */
  function JoinWith(ts: seq<string>, c: char): string
    requires |ts| >= 1
  {
    if |ts| == 1 then ts[0] else ts[0] + [c] + JoinWith(ts[1..], c)
  }

  /** Splitting undoes joining nonempty pieces with one separator. */
  lemma {:induction false} SplitJoin(ts: seq<string>, c: char)
    requires |ts| >= 1 && IsRatioSeparator(c)
    requires forall i :: 0 <= i < |ts| ==> |ts[i]| > 0 && NoSeparator(ts[i])
    ensures SplitRatio(JoinWith(ts, c)) == ts
  {
    if |ts| == 1 {
      SplitWord(ts[0]);
    } else {
      var tail := ts[1..];
      SplitJoin(tail, c);
      var r := JoinWith(tail, c);
      assert |r| > 0 && r[0] == tail[0][0] by {
        JoinStarts(tail, c);
      }
      SplitWordThen(ts[0], c, r);
      assert [ts[0]] + tail == ts;
    }
  }

  lemma JoinStarts(ts: seq<string>, c: char)
    requires |ts| >= 1 && |ts[0]| > 0
    ensures |JoinWith(ts, c)| > 0 && JoinWith(ts, c)[0] == ts[0][0]
  {
  }

  /** Whether `Number(token.trim())` is a positive number, and is kept. */
  predicate IsPositiveToken(t: string) {
    var n := ClientNumbers.JsNumber(t);
    n.Some? && n.value > 0.0
  }

  /** `tokens.map((t) => Number(t.trim())).filter((n) => !isNaN(n) && n > 0)`. */
  function PositiveNumbers(ts: seq<string>): (r: seq<real>)
    ensures |r| <= |ts|
    ensures forall i :: 0 <= i < |r| ==> r[i] > 0.0
  {
    if |ts| == 0 then []
    else
      var rest := PositiveNumbers(ts[1..]);
      if IsPositiveToken(ts[0]) then [ClientNumbers.JsNumber(ts[0]).value] + rest else rest
  }

  lemma {:induction false} PositiveNumbersAppend(a: seq<string>, b: seq<string>)
    ensures PositiveNumbers(a + b) == PositiveNumbers(a) + PositiveNumbers(b)
  {
    if |a| == 0 {
      assert a + b == b;
    } else {
      assert (a + b)[1..] == a[1..] + b;
      PositiveNumbersAppend(a[1..], b);
    }
  }

  lemma PositiveNumbersKeep(t: string, rest: seq<string>)
    requires IsPositiveToken(t)
    ensures PositiveNumbers([t] + rest) == [ClientNumbers.JsNumber(t).value] + PositiveNumbers(rest)
  {
    assert ([t] + rest)[1..] == rest;
  }

  lemma PositiveNumbersDrop(t: string, rest: seq<string>)
    requires !IsPositiveToken(t)
    ensures PositiveNumbers([t] + rest) == PositiveNumbers(rest)
  {
    assert ([t] + rest)[1..] == rest;
  }

  /** A token that is not a positive number is dropped before the count. */
  lemma TokenDropped(before: seq<string>, t: string, after: seq<string>)
    requires !IsPositiveToken(t)
    ensures PositiveNumbers(before + [t] + after) == PositiveNumbers(before + after)
  {
    var tail := [t] + after;
    assert before + [t] + after == before + tail;
    PositiveNumbersAppend(before, tail);
    PositiveNumbersDrop(t, after);
    PositiveNumbersAppend(before, after);
  }

  /**
   * `parseRatioInput(value)`: `null` for a falsy value, otherwise the positive
   * numbers among the pieces, when there are exactly three of them.
   */
  function ParseRatioInput(value: Option<string>): (r: Option<seq<real>>)
    ensures value.None? || value == Some("") ==> r.None?
    ensures r.Some? ==> |r.value| == 3 && forall i :: 0 <= i < 3 ==> r.value[i] > 0.0
  {
    match value
    case None => None
    case Some(s) =>
      if s == "" then None
      else
        var parts := PositiveNumbers(SplitRatio(s));
        if |parts| != 3 then None else Some(parts)
  }

  /** The text `a:b:c` of three whole numbers. */
  function RatioText(a: nat, b: nat, c: nat): string {
    JoinWith([NatToString(a), NatToString(b), NatToString(c)], ':')
  }

  /** A whole number's digits hold no separator. */
  lemma NumeralHasNoSeparator(n: nat)
    ensures NoSeparator(NatToString(n))
  {
    var s := NatToString(n);
    ClientNumbers.NumeralChars(n);
    forall i | 0 <= i < |s| ensures !IsRatioSeparator(s[i]) {
      assert IsDigit(s[i]);
    }
  }

  /** A positive whole number's digits are kept as that number. */
  lemma NumeralIsPositive(n: nat)
    requires n >= 1
    ensures IsPositiveToken(NatToString(n))
    ensures ClientNumbers.JsNumber(NatToString(n)) == Some(n as real)
  {
    StripNoEdges(JavaScript, NatToString(n));
    ParseNatToString(n);
  }

  /** Three positive tokens are all kept, in order. */
  lemma ThreePositive(x: string, y: string, z: string)
    requires IsPositiveToken(x) && IsPositiveToken(y) && IsPositiveToken(z)
    ensures PositiveNumbers([x, y, z]) ==
      [ClientNumbers.JsNumber(x).value, ClientNumbers.JsNumber(y).value, ClientNumbers.JsNumber(z).value]
  {
    PositiveNumbersKeep(z, []);
    PositiveNumbersKeep(y, [z]);
    PositiveNumbersKeep(x, [y, z]);
    assert [y] + [z] == [y, z];
    assert [x] + [y, z] == [x, y, z];
  }

  /** Three positive numerals are read as their values. */
  lemma ThreeNumerals(a: nat, b: nat, c: nat)
    requires a >= 1 && b >= 1 && c >= 1
    ensures PositiveNumbers([NatToString(a), NatToString(b), NatToString(c)]) == [a as real, b as real, c as real]
  {
    NumeralIsPositive(a);
    NumeralIsPositive(b);
    NumeralIsPositive(c);
    ThreePositive(NatToString(a), NatToString(b), NatToString(c));
  }

  /** Three whole parts joined by colons are read back as that ratio. */
  lemma RatioTextReadsBack(a: nat, b: nat, c: nat)
    requires a >= 1 && b >= 1 && c >= 1
    ensures ParseRatioInput(Some(RatioText(a, b, c))) == Some([a as real, b as real, c as real])
  {
    var ts := [NatToString(a), NatToString(b), NatToString(c)];
    NumeralHasNoSeparator(a);
    NumeralHasNoSeparator(b);
    NumeralHasNoSeparator(c);
    SplitJoin(ts, ':');
    JoinStarts(ts, ':');
    ThreeNumerals(a, b, c);
  }

  /** The default ratio, typed as text, is read back as the default ratio. */
  lemma DefaultRatioTextReadsBack()
    ensures ParseRatioInput(Some("4:3:1")) == Some(Constants.DefaultMolarRatio)
  {
    assert NatToString(4) == "4" && NatToString(3) == "3" && NatToString(1) == "1";
    var ts := ["4", "3", "1"];
    assert ts[1..][1..] == ["1"];
    assert JoinWith(ts[1..], ':') == "3:1";
    assert RatioText(4, 3, 1) == JoinWith(ts, ':') == "4:3:1";
    RatioTextReadsBack(4, 3, 1);
  }

  /** The ratio mode and ratio of a transfection-metrics request. */
  datatype RatioRequest = RatioRequest(mode: string, ratio: seq<real>)

  /**
   * The derivation in `updateTransfectionMetrics`: the draft text `4:3:1`
   * asks for the optimal mode with the default ratio; anything else asks for
   * a custom ratio, and when it is not a valid ratio no request is made.
   */
  function MetricsRatio(draftRatio: string): (r: Option<RatioRequest>)
    ensures r.Some? && r.value.mode == "optimal" <==> draftRatio == "4:3:1"
    ensures r.Some? && r.value.mode == "optimal" ==> r.value.ratio == Constants.DefaultMolarRatio
    ensures r.Some? && r.value.mode != "optimal" ==>
      r.value.mode == "custom" && Some(r.value.ratio) == ParseRatioInput(Some(draftRatio))
    ensures r.None? <==> draftRatio != "4:3:1" && ParseRatioInput(Some(draftRatio)).None?
  {
    if draftRatio == "4:3:1" then Some(RatioRequest("optimal", [4.0, 3.0, 1.0]))
    else
      match ParseRatioInput(Some(draftRatio))
      case None => None
      case Some(values) => Some(RatioRequest("custom", values))
  }

  /** Every request carries three positive parts. */
  lemma MetricsRatioPositive(draftRatio: string)
    requires MetricsRatio(draftRatio).Some?
    ensures var ratio := MetricsRatio(draftRatio).value.ratio;
      |ratio| == 3 && forall i :: 0 <= i < 3 ==> ratio[i] > 0.0
  {
  }

  /** The JSON list of numbers a ratio is sent as. */
  function JsonNumbers(vs: seq<real>): (r: seq<Utils.PyValue>)
    ensures |r| == |vs| && forall i :: 0 <= i < |vs| ==> r[i] == Utils.PyNum(vs[i])
  {
    seq(|vs|, i requires 0 <= i < |vs| => Utils.PyNum(vs[i]))
  }

  lemma FloatEachNumbers(vs: seq<real>)
    ensures Routes.FloatEach(JsonNumbers(vs)) == Some(vs)
  {
    var r := Routes.FloatEach(JsonNumbers(vs));
    assert forall i :: 0 <= i < |vs| ==> Utils.PyFloat(JsonNumbers(vs)[i]) == Some(vs[i]);
    assert r.value == vs;
  }

  /**
   * The server's `_parse_ratio` uses the ratio of every request the client
   * makes exactly as the client meant it.
   */
  lemma ServerUsesClientRatio(draftRatio: string)
    requires MetricsRatio(draftRatio).Some?
    ensures var req := MetricsRatio(draftRatio).value;
      Routes.ParseRatio(Utils.PyList(JsonNumbers(req.ratio)), Utils.PyStr(req.mode)) == Ok(req.ratio)
  {
    var req := MetricsRatio(draftRatio).value;
    if req.mode != "optimal" {
      FloatEachNumbers(req.ratio);
      assert Utils.PyStr(req.mode) != Utils.PyStr("optimal");
      assert Utils.Truthy(Utils.PyList(JsonNumbers(req.ratio)));
    }
  }
}
